/** Folding beside the evaluator's depth bound: what the bound does to an evaluation, when an expression stays
    within it, and where a folded expression has the value of the one written. */
module Depth {
  import opened Bytes
  import W = Wire
  import opened Preds
  import opened F = Folding
  import opened Evaluator
  import opened Ranges

  // ---------------------------------------------------------------- one node

  // A node's operands, as many as it has.
  function Op1(e: Expr): (x: Expr)
  {
    if e.Paren? || e.Un? then e.e else if e.Cond? || e.IfThenElse? then e.c else if e.Lit? || e.Ref? then e else e.l
  }
  function Op2(e: Expr): (x: Expr)
  {
    if e.Cond? || e.IfThenElse? then e.t else if e.Lit? || e.Ref? || e.Paren? || e.Un? then e else e.r
  }
  function Op3(e: Expr): (x: Expr) { if e.Cond? || e.IfThenElse? then e.f else e }

  // What a node comes to, given what its operands come to.
  function Combine(sem: Sem, e: Expr, a: Outcome, b: Outcome, c: Outcome): (o: Outcome)
  {
    match e
    case Lit(v) => Val(v)
    case Ref(_, _) => a
    case Paren(_) => a
    case Un(op, _) => if a.Val? then Val(sem.un(op, a.v)) else a
    case Bin(op, _, _) => if !a.Val? then a else if !b.Val? then b else Val(sem.bin(op, a.v, b.v))
    case And(_, _) => Short(sem, true, a, b)
    case Or(_, _) => Short(sem, false, a, b)
    case Cond(_, _, _) => Choice(sem, true, a, b, c)
    case IfThenElse(_, _, _) => Choice(sem, false, a, b, c)
    case Elvis(_, _) => if a == Val(Undef) then b else a
  }

  function Short(sem: Sem, and: bool, a: Outcome, b: Outcome): (o: Outcome)
  {
    if !a.Val? then a else if AfterLeft(sem, and, a.v).Some? then Val(AfterLeft(sem, and, a.v).value)
    else if !b.Val? then b else Val(if and then AndV(sem, a.v, b.v) else OrV(sem, a.v, b.v))
  }

  function Choice(sem: Sem, both: bool, a: Outcome, b: Outcome, c: Outcome): (o: Outcome)
  {
    if !a.Val? then a else
    match View(sem, a.v)
    case LErr => Val(Err)
    case LTrue => b
    case LFalse => c
    case LUndef => if !both then Val(Undef) else if !b.Val? then b else if !c.Val? then c else Val(Undef)
  }

  lemma NodeIn(ads: seq<Ad>, sem: Sem, cur: Option<nat>, e: Expr, d: nat, marks: set<Mark>)
    requires WorldOK(ads) && (cur.Some? ==> cur.value < |ads|) && !e.Ref? && d < MAX_EVAL_DEPTH
    ensures EvalIn(ads, sem, cur, e, d, marks) ==
      Combine(sem, e, EvalIn(ads, sem, cur, Op1(e), d + 1, marks), EvalIn(ads, sem, cur, Op2(e), d + 1, marks),
        EvalIn(ads, sem, cur, Op3(e), d + 1, marks))
  {
    hide View, AndV, OrV, AfterLeft, Resolve;
  }

  lemma NodeEval(sem: Sem, rho: Resolver, e: Expr)
    requires !e.Ref?
    ensures F.Eval(sem, rho, e) ==
      Combine(sem, e, F.Eval(sem, rho, Op1(e)), F.Eval(sem, rho, Op2(e)), F.Eval(sem, rho, Op3(e)))
  {
    hide AndV, OrV;
  }

  ghost predicate Agrees(o: Outcome, o': Outcome) { !o.TooDeep? ==> o' == o }

  // A node that does not unwind at the bound uses no operand that does.
  lemma CombineKept(sem: Sem, e: Expr, a: Outcome, b: Outcome, c: Outcome, a': Outcome, b': Outcome, c': Outcome)
    requires Agrees(a, a') && Agrees(b, b') && Agrees(c, c')
    ensures Agrees(Combine(sem, e, a, b, c), Combine(sem, e, a', b', c'))
  {
    hide View, AndV, OrV, AfterLeft;
  }

  lemma Operand(e: Expr)
    requires !e.Lit? && !e.Ref?
    ensures Op1(e) < e && (Op2(e) == e || Op2(e) < e) && (Op3(e) == e || Op3(e) < e)
    ensures Op1(e) in Operands(e) && (Op2(e) == e || Op2(e) in Operands(e)) && (Op3(e) == e || Op3(e) in Operands(e))
  {
  }

  // ---------------------------------------------------------------- the outcome and the depth

  // Started shallower, an evaluation that did not hit the bound comes to the same.
  lemma {:induction false} Shallower(ads: seq<Ad>, sem: Sem, cur: Option<nat>, e: Expr, d: nat, d': nat,
                                     marks: set<Mark>)
    requires WorldOK(ads) && (cur.Some? ==> cur.value < |ads|) && d' <= d
    ensures Agrees(EvalIn(ads, sem, cur, e, d, marks), EvalIn(ads, sem, cur, e, d', marks))
    decreases MAX_EVAL_DEPTH - d
  {
    if d < MAX_EVAL_DEPTH {
      if e.Ref? {
        ShallowerRef(ads, sem, cur, e, d, d', marks);
      } else {
        hide EvalIn, Combine, Op1, Op2, Op3;
        NodeIn(ads, sem, cur, e, d, marks);
        NodeIn(ads, sem, cur, e, d', marks);
        Shallower(ads, sem, cur, Op1(e), d + 1, d' + 1, marks);
        Shallower(ads, sem, cur, Op2(e), d + 1, d' + 1, marks);
        Shallower(ads, sem, cur, Op3(e), d + 1, d' + 1, marks);
        CombineKept(sem, e, EvalIn(ads, sem, cur, Op1(e), d + 1, marks), EvalIn(ads, sem, cur, Op2(e), d + 1, marks),
          EvalIn(ads, sem, cur, Op3(e), d + 1, marks),
                    EvalIn(ads, sem, cur, Op1(e), d' + 1, marks), EvalIn(ads, sem, cur, Op2(e), d' + 1, marks),
                      EvalIn(ads, sem, cur, Op3(e), d' + 1, marks));
      }
    }
  }

  lemma {:induction false} ShallowerRef(ads: seq<Ad>, sem: Sem, cur: Option<nat>, e: Expr, d: nat, d': nat,
                                        marks: set<Mark>)
    requires WorldOK(ads) && (cur.Some? ==> cur.value < |ads|) && d' <= d < MAX_EVAL_DEPTH && e.Ref?
    ensures Agrees(EvalIn(ads, sem, cur, e, d, marks), EvalIn(ads, sem, cur, e, d', marks))
    decreases MAX_EVAL_DEPTH - d, 0
  {
    hide Resolve;
    var at := Resolve(ads, cur, e.scope, e.name);
    if at.Some? {
      var x := ads[at.value].attrs[e.name];
      if x.Lit? {
        Shallower(ads, sem, cur, x, d + 1, d' + 1, marks);
      } else {
        Shallower(ads, sem, Some(at.value), x, d + 1, d' + 1, marks + {(at.value, e.name)});
      }
    }
  }

  // References as they come out at one depth.
  ghost function RefsAt(ads: seq<Ad>, sem: Sem, cur: Option<nat>, d: nat, marks: set<Mark>): (rho: Resolver)
    requires WorldOK(ads) && (cur.Some? ==> cur.value < |ads|)
  {
    (scope: Scope, name: string) => EvalIn(ads, sem, cur, Ref(scope, name), d, marks)
  }

  // Short of the bound, the evaluator computes the value the operators and the references give.
  lemma {:induction false} EvalAgrees(ads: seq<Ad>, sem: Sem, cur: Option<nat>, e: Expr, d: nat, d': nat,
                                      marks: set<Mark>)
    requires WorldOK(ads) && (cur.Some? ==> cur.value < |ads|) && d' <= d
    ensures Agrees(EvalIn(ads, sem, cur, e, d, marks), F.Eval(sem, RefsAt(ads, sem, cur, d', marks), e))
    decreases e
  {
    var rho := RefsAt(ads, sem, cur, d', marks);
    if e.Ref? {
      Shallower(ads, sem, cur, e, d, d', marks);
    } else if e.Lit? || d >= MAX_EVAL_DEPTH {
    } else {
      hide EvalIn, F.Eval, Combine, Op1, Op2, Op3, RefsAt;
      Operand(e);
      NodeIn(ads, sem, cur, e, d, marks);
      NodeEval(sem, rho, e);
      EvalAgrees(ads, sem, cur, Op1(e), d + 1, d', marks);
      if Op2(e) != e { EvalAgrees(ads, sem, cur, Op2(e), d + 1, d', marks); }
      if Op3(e) != e { EvalAgrees(ads, sem, cur, Op3(e), d + 1, d', marks); }
      var a, b, c := EvalIn(ads, sem, cur, Op1(e), d + 1, marks), EvalIn(ads, sem, cur, Op2(e), d + 1, marks),
        EvalIn(ads, sem, cur, Op3(e), d + 1, marks);
      var b' := if Op2(e) == e then b else F.Eval(sem, rho, Op2(e));
      var c' := if Op3(e) == e then c else F.Eval(sem, rho, Op3(e));
      CombineKept(sem, e, a, b, c, F.Eval(sem, rho, Op1(e)), b', c');
      CombineUses(sem, e, F.Eval(sem, rho, Op1(e)), b', c', F.Eval(sem, rho, Op2(e)), F.Eval(sem, rho, Op3(e)));
    }
  }

  // Operands a node does not have do not matter.
  lemma CombineUses(sem: Sem, e: Expr, a: Outcome, b: Outcome, c: Outcome, b': Outcome, c': Outcome)
    requires (Op2(e) == e || b == b') && (Op3(e) == e || c == c') && !e.Lit? && !e.Ref?
    ensures Combine(sem, e, a, b, c) == Combine(sem, e, a, b', c')
  {
    hide View, AndV, OrV, AfterLeft;
    Operand(e);
  }

  // ---------------------------------------------------------------- folding, under the bound

  ghost predicate Kept(ads: seq<Ad>, sem: Sem, cur: Option<nat>, e: Expr, d: nat, marks: set<Mark>)
    requires WorldOK(ads) && (cur.Some? ==> cur.value < |ads|)
  {
    Agrees(EvalIn(ads, sem, cur, e, d, marks), EvalIn(ads, sem, cur, Fold(sem, e), d, marks))
  }

  // Where the node itself stays within the bound, the rule that fires there is exact.
  ghost predicate SiteIn(ads: seq<Ad>, sem: Sem, cur: Option<nat>, e: Expr, d: nat, marks: set<Mark>)
    requires WorldOK(ads) && (cur.Some? ==> cur.value < |ads|)
  {
    var a, b := EvalIn(ads, sem, cur, Op1(e), d + 1, marks), EvalIn(ads, sem, cur, Op2(e), d + 1, marks);
    || EvalIn(ads, sem, cur, e, d, marks).TooDeep?
    || match e
       case Ref(scope, name) => NowSite(sem, scope, name, EvalIn(ads, sem, cur, e, d, marks))
       case And(l, r) => AndSite(sem, l, r, a, b)
       case Or(l, r) => OrSite(sem, l, r, a, b)
       case Elvis(l, r) => ElvisSite(sem, l, a, b)
       case _ => true
  }

  ghost predicate SitesIn(ads: seq<Ad>, sem: Sem, cur: Option<nat>, e: Expr, d: nat, marks: set<Mark>)
    requires WorldOK(ads) && (cur.Some? ==> cur.value < |ads|)
    decreases e
  {
    SiteIn(ads, sem, cur, e, d, marks) && forall x :: x in Operands(e) ==> SitesIn(ads, sem, cur, x, d + 1, marks)
  }

  // A folded operand, where it was and one level up.
  ghost predicate Lifted(ads: seq<Ad>, sem: Sem, cur: Option<nat>, x: Expr, d: nat, marks: set<Mark>)
    requires WorldOK(ads) && (cur.Some? ==> cur.value < |ads|)
  {
    var o, f := EvalIn(ads, sem, cur, x, d + 1, marks), Fold(sem, x);
    && Agrees(o, EvalIn(ads, sem, cur, f, d + 1, marks)) && Agrees(o, EvalIn(ads, sem, cur, f, d, marks))
    && (f.Lit? ==> Agrees(o, Val(f.v)))
  }

  lemma LiftsUp(ads: seq<Ad>, sem: Sem, cur: Option<nat>, x: Expr, d: nat, marks: set<Mark>)
    requires WorldOK(ads) && (cur.Some? ==> cur.value < |ads|) && Kept(ads, sem, cur, x, d + 1, marks)
    requires d < MAX_EVAL_DEPTH
    ensures Lifted(ads, sem, cur, x, d, marks)
  {
    hide Fold;
    Shallower(ads, sem, cur, Fold(sem, x), d + 1, d, marks);
    if d + 1 >= MAX_EVAL_DEPTH { assert EvalIn(ads, sem, cur, x, d + 1, marks).TooDeep?; }
  }

  lemma LitIn(ads: seq<Ad>, sem: Sem, cur: Option<nat>, v: Value, d: nat, marks: set<Mark>)
    requires WorldOK(ads) && (cur.Some? ==> cur.value < |ads|) && d < MAX_EVAL_DEPTH
    ensures EvalIn(ads, sem, cur, Lit(v), d, marks) == Val(v)
  {
  }

  // What a folded && or || comes to, by what its folded operands come to one level up (a0, b0) and where they were.
  function Folded(sem: Sem, and: bool, f: Expr, g: Expr, a0: Outcome, b0: Outcome, a: Outcome, b: Outcome): (o: Outcome)
  {
    var p, q := LitVal(f), LitVal(g);
    var v := if and then AndV(sem, p, q) else OrV(sem, p, q);
    if p.B? then (if p.b == and then b0 else Val(B(!and)))
    else if q.B? then (if q.b == and then a0 else Val(B(!and)))
    else if p != Undef && q != Undef && Concrete(v) then Val(v)
    else Short(sem, and, a, b)
  }

  lemma ShortFolds(sem: Sem, and: bool, f: Expr, g: Expr, a: Outcome, b: Outcome, a0: Outcome, b0: Outcome, a1: Outcome,
                   b1: Outcome)
    requires Agrees(a, a0) && Agrees(a, a1) && Agrees(b, b0) && Agrees(b, b1)
    requires ShortSite(sem, and, LitVal(f), LitVal(g), a, b)
    requires (f.Lit? ==> Agrees(a, Val(f.v))) && (g.Lit? ==> Agrees(b, Val(g.v)))
    ensures Agrees(Short(sem, and, a, b), Folded(sem, and, f, g, a0, b0, a1, b1))
  {
  }

  // Both kinds at once.
  lemma ShortKept(ads: seq<Ad>, sem: Sem, cur: Option<nat>, and: bool, l: Expr, r: Expr, d: nat, marks: set<Mark>)
    requires WorldOK(ads) && (cur.Some? ==> cur.value < |ads|) && d < MAX_EVAL_DEPTH
    requires Lifted(ads, sem, cur, l, d, marks) && Lifted(ads, sem, cur, r, d, marks)
    requires ShortSite(sem, and, LitVal(Fold(sem, l)), LitVal(Fold(sem, r)), EvalIn(ads, sem, cur, l, d + 1, marks),
      EvalIn(ads, sem, cur, r, d + 1, marks))
    ensures Kept(ads, sem, cur, if and then And(l, r) else Or(l, r), d, marks)
  {
    var f, g := Fold(sem, l), Fold(sem, r);
    var e, e' := if and then And(l, r) else Or(l, r), if and then And(f, g) else Or(f, g);
    FoldShort(sem, and, l, r);
    hide Fold, EvalIn, Short, ShortSite, FoldAnd, FoldOr;
    NodeIn(ads, sem, cur, e, d, marks);
    FoldedIn(ads, sem, cur, and, f, g, d, marks);
    ShortFolds(sem, and, f, g, EvalIn(ads, sem, cur, l, d + 1, marks), EvalIn(ads, sem, cur, r, d + 1, marks),
               EvalIn(ads, sem, cur, f, d, marks), EvalIn(ads, sem, cur, g, d, marks),
                 EvalIn(ads, sem, cur, f, d + 1, marks), EvalIn(ads, sem, cur, g, d + 1, marks));
  }

  lemma FoldShort(sem: Sem, and: bool, l: Expr, r: Expr)
    ensures Fold(sem, if and then And(l, r) else Or(l, r)) == if and then FoldAnd(sem, Fold(sem, l), Fold(sem, r))
      else FoldOr(sem, Fold(sem, l), Fold(sem, r))
  {
    hide FoldAnd, FoldOr;
    if and { assert Fold(sem, And(l, r)) == FoldAnd(sem, Fold(sem, l), Fold(sem, r)); }
    else { assert Fold(sem, Or(l, r)) == FoldOr(sem, Fold(sem, l), Fold(sem, r)); }
  }

  lemma FoldedIn(ads: seq<Ad>, sem: Sem, cur: Option<nat>, and: bool, f: Expr, g: Expr, d: nat, marks: set<Mark>)
    requires WorldOK(ads) && (cur.Some? ==> cur.value < |ads|) && d < MAX_EVAL_DEPTH
    ensures EvalIn(ads, sem, cur, if and then FoldAnd(sem, f, g) else FoldOr(sem, f, g), d, marks) ==
      Folded(sem, and, f, g, EvalIn(ads, sem, cur, f, d, marks), EvalIn(ads, sem, cur, g, d, marks),
             EvalIn(ads, sem, cur, f, d + 1, marks), EvalIn(ads, sem, cur, g, d + 1, marks))
  {
    hide EvalIn, AndV, OrV, Short;
    NodeIn(ads, sem, cur, if and then And(f, g) else Or(f, g), d, marks);
    forall v ensures EvalIn(ads, sem, cur, Lit(v), d, marks) == Val(v) { LitIn(ads, sem, cur, v, d, marks); }
  }

  lemma ElvisKept(ads: seq<Ad>, sem: Sem, cur: Option<nat>, l: Expr, r: Expr, d: nat, marks: set<Mark>)
    requires WorldOK(ads) && (cur.Some? ==> cur.value < |ads|) && d < MAX_EVAL_DEPTH
    requires Lifted(ads, sem, cur, l, d, marks) && Lifted(ads, sem, cur, r, d, marks)
    requires EvalIn(ads, sem, cur, Elvis(l, r), d, marks).TooDeep? ||
      ElvisSite(sem, l, EvalIn(ads, sem, cur, l, d + 1, marks), EvalIn(ads, sem, cur, r, d + 1, marks))
    ensures Kept(ads, sem, cur, Elvis(l, r), d, marks)
  {
    var f, g := Fold(sem, l), Fold(sem, r);
    assert Fold(sem, Elvis(l, r)) == if LitVal(f) == Undef then g else Elvis(f, g);
    hide Fold, EvalIn;
    NodeIn(ads, sem, cur, Elvis(l, r), d, marks);
    NodeIn(ads, sem, cur, Elvis(f, g), d, marks);
  }

  lemma BinKept(ads: seq<Ad>, sem: Sem, cur: Option<nat>, op: string, l: Expr, r: Expr, d: nat, marks: set<Mark>)
    requires WorldOK(ads) && (cur.Some? ==> cur.value < |ads|) && d < MAX_EVAL_DEPTH
    requires Lifted(ads, sem, cur, l, d, marks) && Lifted(ads, sem, cur, r, d, marks)
    ensures Kept(ads, sem, cur, Bin(op, l, r), d, marks)
  {
    var f, g := Fold(sem, l), Fold(sem, r);
    assert Fold(sem, Bin(op, l, r)) == FoldBin(sem, op, f, g);
    hide Fold, EvalIn;
    NodeIn(ads, sem, cur, Bin(op, l, r), d, marks);
    NodeIn(ads, sem, cur, Bin(op, f, g), d, marks);
    forall v ensures EvalIn(ads, sem, cur, Lit(v), d, marks) == Val(v) { LitIn(ads, sem, cur, v, d, marks); }
  }

  lemma UnaryKept(ads: seq<Ad>, sem: Sem, cur: Option<nat>, op: string, x: Expr, d: nat, marks: set<Mark>)
    requires WorldOK(ads) && (cur.Some? ==> cur.value < |ads|) && d < MAX_EVAL_DEPTH
    requires Lifted(ads, sem, cur, x, d, marks)
    ensures Kept(ads, sem, cur, Un(op, x), d, marks) && Kept(ads, sem, cur, Paren(x), d, marks)
  {
    var f := Fold(sem, x);
    assert Fold(sem, Un(op, x)) == FoldUn(sem, op, f) && Fold(sem, Paren(x)) == FoldParen(f);
    hide Fold, EvalIn;
    NodeIn(ads, sem, cur, Un(op, x), d, marks);
    NodeIn(ads, sem, cur, Un(op, f), d, marks);
    NodeIn(ads, sem, cur, Paren(x), d, marks);
    NodeIn(ads, sem, cur, Paren(f), d, marks);
    forall v ensures EvalIn(ads, sem, cur, Lit(v), d, marks) == Val(v) { LitIn(ads, sem, cur, v, d, marks); }
  }

  lemma ChoiceKept(ads: seq<Ad>, sem: Sem, cur: Option<nat>, e: Expr, d: nat, marks: set<Mark>)
    requires WorldOK(ads) && (cur.Some? ==> cur.value < |ads|) && d < MAX_EVAL_DEPTH && (e.Cond? || e.IfThenElse?)
    requires Lifted(ads, sem, cur, e.c, d, marks) && Lifted(ads, sem, cur, e.t, d, marks)
    requires Lifted(ads, sem, cur, e.f, d, marks)
    ensures Kept(ads, sem, cur, e, d, marks)
  {
    var c, t, f := Fold(sem, e.c), Fold(sem, e.t), Fold(sem, e.f);
    var k := LitVal(c);
    var e' := if e.Cond? then Cond(c, t, f) else IfThenElse(c, t, f);
    assert Fold(sem, e) == if k.B? then (if k.b then t else f) else e';
    hide Fold, EvalIn, Choice;
    NodeIn(ads, sem, cur, e, d, marks);
    if k.B? {
      Chosen(sem, e.Cond?, k.b, EvalIn(ads, sem, cur, e.c, d + 1, marks), EvalIn(ads, sem, cur, e.t, d + 1, marks),
        EvalIn(ads, sem, cur, e.f, d + 1, marks));
    } else {
      NodeIn(ads, sem, cur, e', d, marks);
      CombineKept(sem, e, EvalIn(ads, sem, cur, e.c, d + 1, marks), EvalIn(ads, sem, cur, e.t, d + 1, marks),
        EvalIn(ads, sem, cur, e.f, d + 1, marks),
                  EvalIn(ads, sem, cur, c, d + 1, marks), EvalIn(ads, sem, cur, t, d + 1, marks),
                    EvalIn(ads, sem, cur, f, d + 1, marks));
    }
  }

  lemma Chosen(sem: Sem, both: bool, k: bool, a: Outcome, b: Outcome, c: Outcome)
    requires Agrees(a, Val(B(k)))
    ensures Choice(sem, both, a, b, c) == if a.TooDeep? then TooDeep else if k then b else c
  {
  }

  // Folding keeps the outcome of every evaluation that stays within the bound, where each rule that fires is exact.
  lemma {:induction false} FoldKept(ads: seq<Ad>, sem: Sem, cur: Option<nat>, e: Expr, d: nat, marks: set<Mark>)
    requires WorldOK(ads) && (cur.Some? ==> cur.value < |ads|) && SitesIn(ads, sem, cur, e, d, marks)
    ensures Agrees(EvalIn(ads, sem, cur, e, d, marks), EvalIn(ads, sem, cur, Fold(sem, e), d, marks))
    decreases e
  {
    if d < MAX_EVAL_DEPTH && !EvalIn(ads, sem, cur, e, d, marks).TooDeep? {
      forall x | x in Operands(e) ensures Lifted(ads, sem, cur, x, d, marks) {
        FoldKept(ads, sem, cur, x, d + 1, marks);
        LiftsUp(ads, sem, cur, x, d, marks);
      }
      KeptNode(ads, sem, cur, e, d, marks);
    }
  }

  lemma KeptNode(ads: seq<Ad>, sem: Sem, cur: Option<nat>, e: Expr, d: nat, marks: set<Mark>)
    requires WorldOK(ads) && (cur.Some? ==> cur.value < |ads|) && d < MAX_EVAL_DEPTH
    requires SiteIn(ads, sem, cur, e, d, marks)
    requires !EvalIn(ads, sem, cur, e, d, marks).TooDeep?
    requires forall x :: x in Operands(e) ==> Lifted(ads, sem, cur, x, d, marks)
    ensures Kept(ads, sem, cur, e, d, marks)
  {
    hide EvalIn, Lifted, ElvisSite, ShortSite;
    match e
    case Lit(_) =>
    case Ref(_, _) => LitIn(ads, sem, cur, I(sem.now), d, marks);
    case Paren(x) => UnaryKept(ads, sem, cur, "", x, d, marks);
    case Un(op, x) => UnaryKept(ads, sem, cur, op, x, d, marks);
    case Bin(op, l, r) => BinKept(ads, sem, cur, op, l, r, d, marks);
    case And(l, r) => ShortKept(ads, sem, cur, true, l, r, d, marks);
    case Or(l, r) => ShortKept(ads, sem, cur, false, l, r, d, marks);
    case Elvis(l, r) => ElvisKept(ads, sem, cur, l, r, d, marks);
    case Cond(_, _, _) => ChoiceKept(ads, sem, cur, e, d, marks);
    case IfThenElse(_, _, _) => ChoiceKept(ads, sem, cur, e, d, marks);
  }

  // Operands of && and || boolean or undefined, literals left of ?:, and the clock no attribute of the ads.
  ghost predicate PlainIn(ads: seq<Ad>, sem: Sem, cur: Option<nat>, e: Expr, d: nat, marks: set<Mark>)
    requires WorldOK(ads) && (cur.Some? ==> cur.value < |ads|)
    decreases e
  {
    && PlainAt(sem, e, EvalIn(ads, sem, cur, Op1(e), d + 1, marks), EvalIn(ads, sem, cur, Op2(e), d + 1, marks))
    && (e.Ref? && IsNow(e.scope, e.name) ==> Resolve(ads, cur, e.scope, e.name).None?)
    && forall x :: x in Operands(e) ==> PlainIn(ads, sem, cur, x, d + 1, marks)
  }

  lemma {:induction false} PlainSitesIn(ads: seq<Ad>, sem: Sem, cur: Option<nat>, e: Expr, d: nat, marks: set<Mark>)
    requires WorldOK(ads) && (cur.Some? ==> cur.value < |ads|) && PlainIn(ads, sem, cur, e, d, marks)
    ensures SitesIn(ads, sem, cur, e, d, marks)
    decreases e
  {
    forall x | x in Operands(e)
      ensures SitesIn(ads, sem, cur, x, d + 1, marks)
    {
      PlainSitesIn(ads, sem, cur, x, d + 1, marks);
    }
    hide Fold;
    if e.Elvis? && d < MAX_EVAL_DEPTH {
      assert e.l in Operands(e);
      FoldKept(ads, sem, cur, e.l, d + 1, marks);
      LiftsUp(ads, sem, cur, e.l, d, marks);
    }
  }

  // For such expressions, so does folding.
  lemma PlainKept(ads: seq<Ad>, sem: Sem, cur: Option<nat>, e: Expr, d: nat, marks: set<Mark>)
    requires WorldOK(ads) && (cur.Some? ==> cur.value < |ads|) && PlainIn(ads, sem, cur, e, d, marks)
    ensures Agrees(EvalIn(ads, sem, cur, e, d, marks), EvalIn(ads, sem, cur, Fold(sem, e), d, marks))
  {
    hide EvalIn, Fold, SitesIn;
    PlainSitesIn(ads, sem, cur, e, d, marks);
    FoldKept(ads, sem, cur, e, d, marks);
  }

  // ---------------------------------------------------------------- staying within the bound

  // The expression, and whatever it refers to, nest no more than n levels.
  predicate Fits(ads: seq<Ad>, cur: Option<nat>, e: Expr, n: nat)
    requires WorldOK(ads) && (cur.Some? ==> cur.value < |ads|)
    decreases n
  {
    n > 0 && match e
    case Lit(_) => true
    case Ref(scope, name) =>
      (match Resolve(ads, cur, scope, name)
       case None => true
       case Some(a) => Fits(ads, if ads[a].attrs[name].Lit? then cur else Some(a), ads[a].attrs[name], n - 1))
    case _ => forall x :: x in Operands(e) ==> Fits(ads, cur, x, n - 1)
  }

  lemma {:induction false} FitsMore(ads: seq<Ad>, cur: Option<nat>, e: Expr, n: nat, m: nat)
    requires WorldOK(ads) && (cur.Some? ==> cur.value < |ads|) && Fits(ads, cur, e, n) && n <= m
    ensures Fits(ads, cur, e, m)
    decreases n
  {
    hide Resolve;
    forall x | x in Operands(e) && Fits(ads, cur, x, n - 1)
      ensures Fits(ads, cur, x, m - 1)
    {
      FitsMore(ads, cur, x, n - 1, m - 1);
    }
    if e.Ref? {
      var at := Resolve(ads, cur, e.scope, e.name);
      if at.Some? {
        var x := ads[at.value].attrs[e.name];
        FitsMore(ads, if x.Lit? then cur else at, x, n - 1, m - 1);
      }
    }
  }

  // The least number of levels an expression that fits takes.
  lemma {:induction false} LeastFit(ads: seq<Ad>, cur: Option<nat>, e: Expr, n: nat) returns (c: nat)
    requires WorldOK(ads) && (cur.Some? ==> cur.value < |ads|) && Fits(ads, cur, e, n)
    ensures 0 < c <= n && Fits(ads, cur, e, c) && !Fits(ads, cur, e, c - 1)
    decreases n
  {
    if Fits(ads, cur, e, n - 1) { c := LeastFit(ads, cur, e, n - 1); } else { c := n; }
  }

  // No attribute in progress fits in n levels.
  ghost predicate MarksOver(ads: seq<Ad>, marks: set<Mark>, n: nat)
    requires WorldOK(ads)
  {
    forall m: Mark ::
      m in marks ==> m.0 < |ads| && m.1 in ads[m.0].attrs && !Fits(ads, Some(m.0), ads[m.0].attrs[m.1], n)
  }

  // What fits comes to a value: it meets neither the bound nor an attribute in progress.
  lemma {:induction false} FitsValue(ads: seq<Ad>, sem: Sem, cur: Option<nat>, e: Expr, d: nat, marks: set<Mark>,
                                     n: nat)
    requires WorldOK(ads) && (cur.Some? ==> cur.value < |ads|) && Fits(ads, cur, e, n + 1)
    requires d + n + 1 <= MAX_EVAL_DEPTH && MarksOver(ads, marks, n)
    ensures EvalIn(ads, sem, cur, e, d, marks).Val?
    decreases n
  {
    if e.Ref? {
      FitsRef(ads, sem, cur, e.scope, e.name, d, marks, n);
    } else if !e.Lit? {
      hide Fits, EvalIn, Op1, Op2, Op3;
      Operand(e);
      NodeIn(ads, sem, cur, e, d, marks);
      FitsOperand(ads, cur, e, n, Op1(e));
      if Op2(e) != e { FitsOperand(ads, cur, e, n, Op2(e)); }
      if Op3(e) != e { FitsOperand(ads, cur, e, n, Op3(e)); }
      FewerOver(ads, marks, n);
      FitsValue(ads, sem, cur, Op1(e), d + 1, marks, n - 1);
      if Op2(e) != e { FitsValue(ads, sem, cur, Op2(e), d + 1, marks, n - 1); }
      if Op3(e) != e { FitsValue(ads, sem, cur, Op3(e), d + 1, marks, n - 1); }
      ValuesCombine(sem, e, EvalIn(ads, sem, cur, Op1(e), d + 1, marks), EvalIn(ads, sem, cur, Op2(e), d + 1, marks),
        EvalIn(ads, sem, cur, Op3(e), d + 1, marks));
    }
  }

  lemma FitsOperand(ads: seq<Ad>, cur: Option<nat>, e: Expr, n: nat, x: Expr)
    requires WorldOK(ads) && (cur.Some? ==> cur.value < |ads|) && !e.Ref? && Fits(ads, cur, e, n + 1)
    requires x in Operands(e)
    ensures n > 0 && Fits(ads, cur, x, n)
  {
    hide Resolve;
    assert Fits(ads, cur, x, n);
  }

  lemma FewerOver(ads: seq<Ad>, marks: set<Mark>, n: nat)
    requires WorldOK(ads) && n > 0 && MarksOver(ads, marks, n)
    ensures MarksOver(ads, marks, n - 1)
  {
    hide Fits;
    forall m: Mark | m in marks ensures !Fits(ads, Some(m.0), ads[m.0].attrs[m.1], n - 1) {
      if Fits(ads, Some(m.0), ads[m.0].attrs[m.1], n - 1) { FitsMore(ads, Some(m.0), ads[m.0].attrs[m.1], n - 1, n); }
    }
  }

  lemma ValuesCombine(sem: Sem, e: Expr, a: Outcome, b: Outcome, c: Outcome)
    requires !e.Lit? && !e.Ref? && a.Val? && (Op2(e) == e || b.Val?) && (Op3(e) == e || c.Val?)
    ensures Combine(sem, e, a, b, c).Val?
  {
    hide View, AndV, OrV, AfterLeft;
    Operand(e);
  }

  lemma {:induction false} FitsRef(ads: seq<Ad>, sem: Sem, cur: Option<nat>, scope: Scope, name: Name, d: nat,
                                   marks: set<Mark>, n: nat)
    requires WorldOK(ads) && (cur.Some? ==> cur.value < |ads|) && Fits(ads, cur, Ref(scope, name), n + 1)
    requires d + n + 1 <= MAX_EVAL_DEPTH && MarksOver(ads, marks, n)
    ensures EvalIn(ads, sem, cur, Ref(scope, name), d, marks).Val?
    decreases n, 0
  {
    hide Resolve;
    var at := Resolve(ads, cur, scope, name);
    if at.Some? && !ads[at.value].attrs[name].Lit? {
      var x, m: Mark := ads[at.value].attrs[name], (at.value, name);
      assert Fits(ads, at, x, n);
      var c := LeastFit(ads, at, x, n);
      assert MarksOver(ads, marks + {m}, c - 1) by { OverWith(ads, marks, m, n, c - 1); }
      FitsValue(ads, sem, at, x, d + 1, marks + {m}, c - 1);
    }
  }

  lemma OverWith(ads: seq<Ad>, marks: set<Mark>, m: Mark, n: nat, c: nat)
    requires WorldOK(ads) && MarksOver(ads, marks, n) && c <= n && m.0 < |ads| && m.1 in ads[m.0].attrs
    requires !Fits(ads, Some(m.0), ads[m.0].attrs[m.1], c)
    ensures MarksOver(ads, marks + {m}, c)
  {
    hide Fits;
    forall k: Mark | k in marks ensures !Fits(ads, Some(k.0), ads[k.0].attrs[k.1], c) {
      if Fits(ads, Some(k.0), ads[k.0].attrs[k.1], c) { FitsMore(ads, Some(k.0), ads[k.0].attrs[k.1], c, n); }
    }
  }

  // A strict expression that came to a value fit.
  lemma {:induction false} ValueFits(ads: seq<Ad>, sem: Sem, cur: Option<nat>, e: Expr, d: nat, marks: set<Mark>)
    requires WorldOK(ads) && StrictWorld(ads) && Strict(e) && (cur.Some? ==> cur.value < |ads|)
    requires EvalIn(ads, sem, cur, e, d, marks).Val?
    ensures d < MAX_EVAL_DEPTH && Fits(ads, cur, e, MAX_EVAL_DEPTH - d)
    decreases MAX_EVAL_DEPTH - d
  {
    if e.Ref? {
      hide Resolve, Strict;
      var at := Resolve(ads, cur, e.scope, e.name);
      if at.Some? {
        var x := ads[at.value].attrs[e.name];
        assert Strict(x);
        if x.Lit? { ValueFits(ads, sem, cur, x, d + 1, marks); }
        else { ValueFits(ads, sem, at, x, d + 1, marks + {(at.value, e.name)}); }
      }
    } else {
      forall x | x in Operands(e) ensures Fits(ads, cur, x, MAX_EVAL_DEPTH - d - 1) {
        OperandValue(ads, sem, cur, e, d, marks, x);
        ValueFits(ads, sem, cur, x, d + 1, marks);
      }
      hide Resolve, Strict, EvalIn;
    }
  }

  // Of strict expressions, exactly those that fit have a value; of others, those that fit do.
  lemma ValueExactly(ads: seq<Ad>, sem: Sem, cur: Option<nat>, e: Expr, d: nat)
    requires WorldOK(ads) && (cur.Some? ==> cur.value < |ads|) && d <= MAX_EVAL_DEPTH
    ensures Fits(ads, cur, e, MAX_EVAL_DEPTH - d) ==> EvalIn(ads, sem, cur, e, d, {}).Val?
    ensures StrictWorld(ads) && Strict(e) && EvalIn(ads, sem, cur, e, d, {}).Val? ==>
      Fits(ads, cur, e, MAX_EVAL_DEPTH - d)
  {
    hide Strict, StrictWorld, Fits, EvalIn;
    if Fits(ads, cur, e, MAX_EVAL_DEPTH - d) {
      assert d < MAX_EVAL_DEPTH by { NoLevels(ads, cur, e); }
      FitsValue(ads, sem, cur, e, d, {}, MAX_EVAL_DEPTH - d - 1);
    }
    if StrictWorld(ads) && Strict(e) && EvalIn(ads, sem, cur, e, d, {}).Val? { ValueFits(ads, sem, cur, e, d, {}); }
  }

  lemma NoLevels(ads: seq<Ad>, cur: Option<nat>, e: Expr)
    requires WorldOK(ads) && (cur.Some? ==> cur.value < |ads|)
    ensures !Fits(ads, cur, e, 0)
  {
  }

  // Within the bound folding keeps the value of a plain expression: a condition on the expression and the ads alone.
  lemma FittingKept(ads: seq<Ad>, sem: Sem, cur: Option<nat>, e: Expr, d: nat)
    requires WorldOK(ads) && (cur.Some? ==> cur.value < |ads|) && d <= MAX_EVAL_DEPTH
    requires PlainIn(ads, sem, cur, e, d, {})
    requires Fits(ads, cur, e, MAX_EVAL_DEPTH - d)
    ensures EvalIn(ads, sem, cur, Fold(sem, e), d, {}) == EvalIn(ads, sem, cur, e, d, {}) &&
      EvalIn(ads, sem, cur, e, d, {}).Val?
  {
    hide EvalIn, Fold, Fits, PlainIn;
    ValueExactly(ads, sem, cur, e, d);
    PlainKept(ads, sem, cur, e, d, {});
  }

  // ---------------------------------------------------------------- where the bound parts the two

  // No ad defines CurrentTime.
  predicate Clockless(ads: seq<Ad>) { forall i :: 0 <= i < |ads| ==> CURRENT_TIME !in ads[i].attrs }

  lemma {:induction false} StrictPlain(ads: seq<Ad>, sem: Sem, cur: Option<nat>, e: Expr, d: nat, marks: set<Mark>)
    requires WorldOK(ads) && (cur.Some? ==> cur.value < |ads|) && Strict(e) && Clockless(ads)
    ensures PlainIn(ads, sem, cur, e, d, marks)
    decreases e
  {
    if e.Ref? && Resolve(ads, cur, e.scope, e.name).Some? {
      assert e.name in ads[Resolve(ads, cur, e.scope, e.name).value].attrs;
    }
    hide Resolve;
    forall x | x in Operands(e)
      ensures PlainIn(ads, sem, cur, x, d + 1, marks)
    {
      StrictPlain(ads, sem, cur, x, d + 1, marks);
    }
  }

  lemma {:induction false} StrictFolds(sem: Sem, e: Expr)
    requires Strict(e)
    ensures Strict(Fold(sem, e))
    decreases e
  {
    forall x | x in Operands(e) ensures Strict(Fold(sem, x)) { StrictFolds(sem, x); }
    match e
    case Paren(x) => assert x in Operands(e);
    case Un(op, x) => assert x in Operands(e);
    case Bin(op, l, r) => assert l in Operands(e) && r in Operands(e);
    case _ =>
  }

  // The same value, or a panic each.
  predicate SameValue(o: Outcome, o': Outcome) { if o.Val? || o'.Val? then o == o' else true }

  // A strict expression and its folded form come to the same if and only if the written form fits within the bound,
  // or the folded form does not either.
  lemma FoldSameExactly(ads: seq<Ad>, sem: Sem, cur: Option<nat>, e: Expr, d: nat)
    requires WorldOK(ads) && StrictWorld(ads) && Clockless(ads) && Strict(e) && (cur.Some? ==> cur.value < |ads|)
    requires d <= MAX_EVAL_DEPTH
    ensures SameValue(EvalIn(ads, sem, cur, Fold(sem, e), d, {}), EvalIn(ads, sem, cur, e, d, {})) <==>
      Fits(ads, cur, e, MAX_EVAL_DEPTH - d) || !Fits(ads, cur, Fold(sem, e), MAX_EVAL_DEPTH - d)
  {
    hide EvalIn, Fold, Fits, PlainIn, Strict, StrictWorld;
    StrictFolds(sem, e);
    StrictPlain(ads, sem, cur, e, d, {});
    PlainKept(ads, sem, cur, e, d, {});
    ValueExactly(ads, sem, cur, e, d);
    ValueExactly(ads, sem, cur, Fold(sem, e), d);
  }

  // A clock reference and its folded form come to the same if and only if the ad in scope leaves it undefined, or
  // has the very time.
  lemma NowExactly(ads: seq<Ad>, sem: Sem, cur: Option<nat>, scope: Scope, d: nat, marks: set<Mark>)
    requires WorldOK(ads) && (cur.Some? ==> cur.value < |ads|) && IsNow(scope, CURRENT_TIME) && d < MAX_EVAL_DEPTH
    ensures var at := Resolve(ads, cur, scope, CURRENT_TIME);
      EvalIn(ads, sem, cur, Fold(sem, Ref(scope, CURRENT_TIME)), d, marks) ==
        EvalIn(ads, sem, cur, Ref(scope, CURRENT_TIME), d, marks) <==>
      || at.None?
      || var x := ads[at.value].attrs[CURRENT_TIME];
         var o := if x.Lit? then EvalIn(ads, sem, cur, x, d + 1, marks)
                  else if (at.value, CURRENT_TIME) in marks then Cyclic
                  else EvalIn(ads, sem, at, x, d + 1, marks + {(at.value, CURRENT_TIME)});
         o == Val(Undef) || o == Val(I(sem.now))
  {
    hide Resolve;
    LitIn(ads, sem, cur, I(sem.now), d, marks);
  }

  function Parens(n: nat, x: Expr): (e: Expr) { if n == 0 then x else Paren(Parens(n - 1, x)) }

  lemma {:induction false} ParensIn(ads: seq<Ad>, sem: Sem, cur: Option<nat>, n: nat, v: Value, d: nat,
                                    marks: set<Mark>)
    requires WorldOK(ads) && (cur.Some? ==> cur.value < |ads|)
    ensures EvalIn(ads, sem, cur, Parens(n, Lit(v)), d, marks) == if d + n < MAX_EVAL_DEPTH then Val(v) else TooDeep
    ensures Fold(sem, Parens(n, Lit(v))) == Lit(v)
    decreases n
  {
    if n > 0 { ParensIn(ads, sem, cur, n - 1, v, d + 1, marks); }
  }

  // Folding strips the parentheses at any depth; written with 2000 pairs the expression is an error.
  lemma ParensPart(ads: seq<Ad>, sem: Sem, cur: Option<nat>)
    requires WorldOK(ads) && (cur.Some? ==> cur.value < |ads|)
    ensures var e := Parens(2000, Lit(I(1)));
      Recovered(EvalIn(ads, sem, cur, e, 0, {})) == Err && Recovered(EvalIn(ads, sem, cur, Fold(sem, e), 0, {})) == I(1)
  {
    ParensIn(ads, sem, cur, 2000, I(1), 0, {});
    LitIn(ads, sem, cur, I(1), 0, {});
  }

  // ---------------------------------------------------------------- counting by a constraint

  lemma {:induction false} TermStrict(e: Expr)
    requires PlainAttr(e).Some? || NumericLiteral(e).Some?
    ensures Strict(e)
  {
    if e.Paren? { TermStrict(e.e); }
  }

  // A constraint that came out true has evaluated every comparison, so it fit.
  lemma {:induction false} TrueFits(ads: seq<Ad>, sem: Sem, cur: Option<nat>, e: Expr, d: nat)
    requires WorldOK(ads) && StrictWorld(ads) && (cur.Some? ==> cur.value < |ads|) && Parse(e).Some?
    requires EvalIn(ads, sem, cur, e, d, {}).Val? && View(sem, EvalIn(ads, sem, cur, e, d, {}).v) == LTrue
    ensures d < MAX_EVAL_DEPTH && Fits(ads, cur, e, MAX_EVAL_DEPTH - d)
    decreases e
  {
    hide EvalIn, Fits, StrictWorld, WorldOK, View;
    if e.Bin? {
      TermStrict(e.l);
      TermStrict(e.r);
      ValueFits(ads, sem, cur, e, d, {});
    } else {
      AtBound(ads, sem, cur, e, d);
      NodeIn(ads, sem, cur, e, d, {});
      if e.And? { ShortTrue(sem, EvalIn(ads, sem, cur, Op1(e), d + 1, {}), EvalIn(ads, sem, cur, Op2(e), d + 1, {})); }
      TrueFits(ads, sem, cur, Op1(e), d + 1);
      if e.And? { TrueFits(ads, sem, cur, Op2(e), d + 1); }
      FitsNode(ads, cur, e, MAX_EVAL_DEPTH - d);
    }
  }

  lemma AtBound(ads: seq<Ad>, sem: Sem, cur: Option<nat>, e: Expr, d: nat)
    requires WorldOK(ads) && (cur.Some? ==> cur.value < |ads|) && EvalIn(ads, sem, cur, e, d, {}).Val?
    ensures d < MAX_EVAL_DEPTH
  {
    hide Resolve;
  }

  lemma ShortTrue(sem: Sem, a: Outcome, b: Outcome)
    requires Short(sem, true, a, b).Val? && View(sem, Short(sem, true, a, b).v) == LTrue
    ensures a.Val? && View(sem, a.v) == LTrue && b.Val? && View(sem, b.v) == LTrue
  {
  }

  lemma FitsNode(ads: seq<Ad>, cur: Option<nat>, e: Expr, n: nat)
    requires WorldOK(ads) && (cur.Some? ==> cur.value < |ads|) && n > 0 && !e.Ref?
    requires forall x :: x in Operands(e) ==> Fits(ads, cur, x, n - 1)
    ensures Fits(ads, cur, e, n)
  {
    hide Resolve;
  }

  // In 2000 pairs of parentheses a constraint reads as it did, and is past the bound.
  lemma {:induction false} ParensDeep(ads: seq<Ad>, sem: Sem, cur: Option<nat>, n: nat, e: Expr)
    requires WorldOK(ads) && (cur.Some? ==> cur.value < |ads|)
    ensures Parse(Parens(n, e)) == Parse(e) && !Fits(ads, cur, Parens(n, e), n)
    ensures n <= MAX_EVAL_DEPTH ==> EvalIn(ads, sem, cur, Parens(n, e), MAX_EVAL_DEPTH - n, {}).TooDeep?
    decreases n
  {
    hide Resolve;
    if n > 0 {
      ParensDeep(ads, sem, cur, n - 1, e);
      assert Parens(n - 1, e) in Operands(Parens(n, e));
    }
  }

  // The counts read a constraint at any depth, so there is a third way they part from the evaluator: a record
  // the conditions admit whose evaluation hits the bound is counted. One that fits does not hit it.
  lemma CountedIn(ads: seq<Ad>, sem: Sem, cur: Option<nat>, e: Expr, ad: seq<W.Entry>, idOf: string -> nat)
    requires WorldOK(ads) && (cur.Some? ==> cur.value < |ads|) && Compares(sem) && Parse(e).Some? && Timeless(e)
    requires Reads(RefsAt(ads, sem, cur, 0, {}), ad, idOf)
    ensures var rho, cs, deep := RefsAt(ads, sem, cur, 0, {}), Parse(e).value, EvalIn(ads, sem, cur, e, 0, {}).TooDeep?;
      var counted, matches := AllProbesHold(ProbesOf(cs, idOf), ad), EvalIn(ads, sem, cur, e, 0, {}) == Val(B(true));
      && (counted && !matches <==> ReadsHold(cs, rho) && LiteralOnly(cs, ad, idOf) && (SomeMerged(sem, rho, e) || deep))
      && (matches && !counted <==>
         ReadsHold(cs, rho) && !LiteralOnly(cs, ad, idOf) && !SomeMerged(sem, rho, e) && !deep)
    ensures Fits(ads, cur, e, MAX_EVAL_DEPTH) ==> !EvalIn(ads, sem, cur, e, 0, {}).TooDeep?
  {
    hide EvalIn, F.Eval, SomeMerged, Compares, Reads, LiteralOnly, AllProbesHold, ReadsHold, Parse, RefsAt, Timeless,
      Fits;
    var rho := RefsAt(ads, sem, cur, 0, {});
    EvalAgrees(ads, sem, cur, e, 0, 0, {});
    CountedExactly(sem, rho, e, ad, idOf);
    ParsedMeans(sem, rho, e);
    ValueExactly(ads, sem, cur, e, 0);
  }

  // Over strict attributes the bound is hit exactly where the constraint, with what it refers to, does not fit.
  lemma CountedInExactly(ads: seq<Ad>, sem: Sem, cur: Option<nat>, e: Expr, ad: seq<W.Entry>, idOf: string -> nat)
    requires WorldOK(ads) && (cur.Some? ==> cur.value < |ads|) && Compares(sem) && Parse(e).Some? && Timeless(e)
    requires Reads(RefsAt(ads, sem, cur, 0, {}), ad, idOf) && StrictWorld(ads)
    ensures var rho, cs, fits := RefsAt(ads, sem, cur, 0, {}), Parse(e).value, Fits(ads, cur, e, MAX_EVAL_DEPTH);
      var counted, matches := AllProbesHold(ProbesOf(cs, idOf), ad), EvalIn(ads, sem, cur, e, 0, {}) == Val(B(true));
      && (counted && !matches <==>
         ReadsHold(cs, rho) && LiteralOnly(cs, ad, idOf) && (SomeMerged(sem, rho, e) || !fits))
      && (matches && !counted <==>
         ReadsHold(cs, rho) && !LiteralOnly(cs, ad, idOf) && !SomeMerged(sem, rho, e) && fits)
  {
    hide EvalIn, F.Eval, SomeMerged, Compares, Reads, LiteralOnly, AllProbesHold, ReadsHold, Parse, RefsAt, Timeless,
      Fits, StrictWorld;
    var rho := RefsAt(ads, sem, cur, 0, {});
    CountedIn(ads, sem, cur, e, ad, idOf);
    EvalAgrees(ads, sem, cur, e, 0, 0, {});
    ParsedMeans(sem, rho, e);
    if EvalIn(ads, sem, cur, e, 0, {}) == Val(B(true)) { TrueFits(ads, sem, cur, e, 0); }
  }
}
