/** Attribute evaluation with cycle detection: per-ad in-progress marks, a rebound current ad, and a depth
    bound; over scalar expressions with their short circuits. */
module Evaluator {
  import opened Bytes
  import opened Folding

  const MAX_EVAL_DEPTH: nat := 2000

  type Name = string

  // An ad: its attributes under folded names, its enclosing ad, and the ad it is matched with.
  datatype Ad = Ad(attrs: map<Name, Expr>, parent: Option<nat>, target: Option<nat>)

  // Enclosing scopes do not loop.
  predicate WorldOK(ads: seq<Ad>)
  {
    forall i ::
      0 <= i < |ads| ==>
        (ads[i].parent.Some? ==> ads[i].parent.value < i) && (ads[i].target.Some? ==> ads[i].target.value < |ads|)
  }

  // The nearest enclosing ad, from i outward, that defines the name.
  function FindUp(ads: seq<Ad>, i: Option<nat>, name: Name): (r: Option<nat>)
    requires WorldOK(ads) && (i.Some? ==> i.value < |ads|)
    ensures r.Some? ==> r.value < |ads| && name in ads[r.value].attrs
    decreases if i.Some? then i.value + 1 else 0
  {
    if i.None? then None else if name in ads[i.value].attrs then i else FindUp(ads, ads[i.value].parent, name)
  }

  function FindIn(ads: seq<Ad>, i: Option<nat>, name: Name): (r: Option<nat>)
    requires i.Some? ==> i.value < |ads|
    ensures r.Some? ==> r.value < |ads| && name in ads[r.value].attrs
  {
    if i.Some? && name in ads[i.value].attrs then i else None
  }

  // Where a reference made in an ad finds its attribute.
  function Resolve(ads: seq<Ad>, cur: Option<nat>, scope: Scope, name: Name): (r: Option<nat>)
    requires WorldOK(ads) && (cur.Some? ==> cur.value < |ads|)
    ensures r.Some? ==> r.value < |ads| && name in ads[r.value].attrs
  {
    match scope
    case My => FindIn(ads, cur, name)
    case Target => if cur.None? then None else FindIn(ads, ads[cur.value].target, name)
    case Parent => if cur.None? then None else FindIn(ads, ads[cur.value].parent, name)
    case Unscoped =>
      var up := FindUp(ads, cur, name);
      if up.Some? then up else if cur.None? then None else FindUp(ads, ads[cur.value].target, name)
  }

  // An attribute of an ad, as marked while it is being evaluated.
  type Mark = (nat, Name)

  // What the left of && (or of ||) decides by itself.
  function AfterLeft(sem: Sem, and: bool, a: Value): (o: Option<Value>)
  {
    if View(sem, a) == LErr then Some(Err)
    else if and && View(sem, a) == LFalse then Some(B(false))
    else if !and && View(sem, a) == LTrue then Some(B(true))
    else None
  }

  function EvalIn(ads: seq<Ad>, sem: Sem, cur: Option<nat>, e: Expr, d: nat, marks: set<Mark>): (r: Outcome)
    requires WorldOK(ads) && (cur.Some? ==> cur.value < |ads|)
    decreases MAX_EVAL_DEPTH - d
  {
    if d >= MAX_EVAL_DEPTH then TooDeep
    else
      match e
      case Lit(v) => Val(v)
      case Paren(x) => EvalIn(ads, sem, cur, x, d + 1, marks)
      case Un(op, x) =>
        var a := EvalIn(ads, sem, cur, x, d + 1, marks);
        if a.Val? then Val(sem.un(op, a.v)) else a
      case Bin(op, l, r) =>
        var a := EvalIn(ads, sem, cur, l, d + 1, marks);
        if !a.Val? then a else
        var b := EvalIn(ads, sem, cur, r, d + 1, marks);
        if !b.Val? then b else Val(sem.bin(op, a.v, b.v))
      case And(l, r) =>
        var a := EvalIn(ads, sem, cur, l, d + 1, marks);
        if !a.Val? then a else if AfterLeft(sem, true, a.v).Some? then Val(AfterLeft(sem, true, a.v).value) else
        var b := EvalIn(ads, sem, cur, r, d + 1, marks);
        if !b.Val? then b else Val(AndV(sem, a.v, b.v))
      case Or(l, r) =>
        var a := EvalIn(ads, sem, cur, l, d + 1, marks);
        if !a.Val? then a else if AfterLeft(sem, false, a.v).Some? then Val(AfterLeft(sem, false, a.v).value) else
        var b := EvalIn(ads, sem, cur, r, d + 1, marks);
        if !b.Val? then b else Val(OrV(sem, a.v, b.v))
      case Cond(c, t, f) =>
        var a := EvalIn(ads, sem, cur, c, d + 1, marks);
        if !a.Val? then a
        else if View(sem, a.v) == LErr then Val(Err)
        else if View(sem, a.v) == LFalse then EvalIn(ads, sem, cur, f, d + 1, marks) else
        var b := EvalIn(ads, sem, cur, t, d + 1, marks);
        if View(sem, a.v) == LTrue || !b.Val? then b else
        var o := EvalIn(ads, sem, cur, f, d + 1, marks);
        if !o.Val? then o else Val(Undef)
      case Elvis(l, r) =>
        var a := EvalIn(ads, sem, cur, l, d + 1, marks);
        if a == Val(Undef) then EvalIn(ads, sem, cur, r, d + 1, marks) else a
      case IfThenElse(c, t, f) =>
        var a := EvalIn(ads, sem, cur, c, d + 1, marks);
        if !a.Val? then a
        else if View(sem, a.v) == LErr then Val(Err)
        else if View(sem, a.v) == LUndef then Val(Undef)
        else EvalIn(ads, sem, cur, if View(sem, a.v) == LTrue then t else f, d + 1, marks)
      case Ref(scope, name) =>
        OrNow(sem, scope, name,
          match Resolve(ads, cur, scope, name)
          case None => Val(Undef)
          case Some(a) =>
            var x := ads[a].attrs[name];
            if x.Lit? then EvalIn(ads, sem, cur, x, d + 1, marks)
            else if (a, name) in marks then Cyclic
            else EvalIn(ads, sem, Some(a), x, d + 1, marks + {(a, name)}))
  }

  // A clock reference that comes to nothing is the time.
  function OrNow(sem: Sem, scope: Scope, name: Name, o: Outcome): (r: Outcome)
  {
    if o == Val(Undef) && IsNow(scope, name) then Val(I(sem.now)) else o
  }

  // Both short circuits at once.
  lemma ShortStep(ads: seq<Ad>, sem: Sem, cur: Option<nat>, and: bool, left: Expr, right: Expr, d: nat,
                  marks: set<Mark>)
    requires WorldOK(ads) && (cur.Some? ==> cur.value < |ads|) && d < MAX_EVAL_DEPTH
    ensures EvalIn(ads, sem, cur, if and then And(left, right) else Or(left, right), d, marks) ==
      var a, b := EvalIn(ads, sem, cur, left, d + 1, marks), EvalIn(ads, sem, cur, right, d + 1, marks);
      if !a.Val? then a else if AfterLeft(sem, and, a.v).Some? then Val(AfterLeft(sem, and, a.v).value)
      else if !b.Val? then b else Val(if and then AndV(sem, a.v, b.v) else OrV(sem, a.v, b.v))
  {
    hide View, AndV, OrV, Resolve, AfterLeft;
    if and {
      assert EvalIn(ads, sem, cur, And(left, right), d, marks) ==
        EvalIn(ads, sem, cur, if and then And(left, right) else Or(left, right), d, marks);
    } else {
      assert EvalIn(ads, sem, cur, Or(left, right), d, marks) ==
        EvalIn(ads, sem, cur, if and then And(left, right) else Or(left, right), d, marks);
    }
  }

  // A panic recovered at an entry point becomes an error value.
  function Recovered(o: Outcome): (v: Value) { if o.Val? then o.v else Err }

  // ---------------------------------------------------------------- the evaluator object

  class Evaluator {
    const ads: seq<Ad>
    const sem: Sem
    var classad: Option<nat>
    var depth: nat
    // The in-progress names of every ad.
    var evaluating: set<Mark>

    predicate Valid()
      reads this
    {
      WorldOK(ads) && (classad.Some? ==> classad.value < |ads|)
    }

    constructor (ads: seq<Ad>, sem: Sem, start: Option<nat>, depth: nat, evaluating: set<Mark>)
      requires WorldOK(ads) && (start.Some? ==> start.value < |ads|)
      ensures Valid() && this.ads == ads && this.sem == sem && classad == start && this.depth == depth &&
        this.evaluating == evaluating
    {
      this.ads, this.sem, classad, this.depth, this.evaluating := ads, sem, start, depth, evaluating;
    }

    // Evaluate one node. The current ad and every in-progress mark end as they began, whether it returns or
    // unwinds; the depth does too unless it unwinds.
    method Evaluate(e: Expr) returns (r: Outcome)
      requires Valid()
      modifies this
      ensures Valid() && r == EvalIn(ads, sem, old(classad), e, old(depth), old(evaluating))
      ensures classad == old(classad) && evaluating == old(evaluating) && (r.Val? ==> depth == old(depth))
      decreases MAX_EVAL_DEPTH - depth, 1
    {
      if depth >= MAX_EVAL_DEPTH { return TooDeep; }
      depth := depth + 1;
      r := EvalNode(e);
      if r.Val? { depth := depth - 1; }
    }

    method EvalNode(e: Expr) returns (r: Outcome)
      requires Valid() && 0 < depth <= MAX_EVAL_DEPTH
      modifies this
      ensures Valid() && r == EvalIn(ads, sem, old(classad), e, old(depth) - 1, old(evaluating))
      ensures classad == old(classad) && evaluating == old(evaluating) && (r.Val? ==> depth == old(depth))
      decreases MAX_EVAL_DEPTH - depth, 4
    {
      hide View, AndV, OrV, Resolve;
      match e {
        case Lit(v) => r := Val(v);
        case Paren(x) => r := Evaluate(x);
        case Un(op, x) =>
          r := Evaluate(x);
          if r.Val? { r := Val(sem.un(op, r.v)); }
        case Bin(op, left, right) =>
          r := Evaluate(left);
          if !r.Val? { return; }
          var b := Evaluate(right);
          r := if b.Val? then Val(sem.bin(op, r.v, b.v)) else b;
        case And(left, right) => r := ShortCircuit(true, left, right);
        case Or(left, right) => r := ShortCircuit(false, left, right);
        case Cond(c, t, f) => r := Conditional(c, t, f);
        case Elvis(left, right) =>
          r := Evaluate(left);
          if r == Val(Undef) { r := Evaluate(right); }
        case IfThenElse(c, t, f) => r := Choose(c, t, f);
        case Ref(scope, name) =>
          var at := Resolve(ads, classad, scope, name);
          if at.None? { return OrNow(sem, scope, name, Val(Undef)); }
          r := EvalAttrExpr(at.value, name);
          r := OrNow(sem, scope, name, r);
      }
    }

    // The right operand is evaluated only when the left does not decide.
    method ShortCircuit(and: bool, left: Expr, right: Expr) returns (r: Outcome)
      requires Valid() && 0 < depth <= MAX_EVAL_DEPTH
      modifies this
      ensures Valid() &&
        r == EvalIn(ads, sem, old(classad), if and then And(left, right)
          else Or(left, right), old(depth) - 1, old(evaluating))
      ensures classad == old(classad) && evaluating == old(evaluating) && (r.Val? ==> depth == old(depth))
      decreases MAX_EVAL_DEPTH - depth, 2
    {
      hide View, AndV, OrV, EvalIn;
      ShortStep(ads, sem, classad, and, left, right, depth - 1, evaluating);
      r := Evaluate(left);
      if !r.Val? { return; }
      var a := r.v;
      match View(sem, a) {
        case LErr => return Val(Err);
        case LFalse => if and { return Val(B(false)); }
        case LTrue => if !and { return Val(B(true)); }
        case LUndef =>
      }
      var b := Evaluate(right);
      r := if !b.Val? then b else if and then Val(AndV(sem, a, b.v)) else Val(OrV(sem, a, b.v));
    }

    // An undefined condition evaluates both branches, so that a panic in either is not lost.
    method Conditional(c: Expr, t: Expr, f: Expr) returns (r: Outcome)
      requires Valid() && 0 < depth <= MAX_EVAL_DEPTH
      modifies this
      ensures Valid() && r == EvalIn(ads, sem, old(classad), Cond(c, t, f), old(depth) - 1, old(evaluating))
      ensures classad == old(classad) && evaluating == old(evaluating) && (r.Val? ==> depth == old(depth))
      decreases MAX_EVAL_DEPTH - depth, 2
    {
      hide View, Resolve;
      r := Evaluate(c);
      if !r.Val? { return; }
      match View(sem, r.v) {
        case LTrue => r := Evaluate(t);
        case LFalse => r := Evaluate(f);
        case LUndef =>
          r := Evaluate(t);
          if !r.Val? { return; }
          r := Evaluate(f);
          if r.Val? { r := Val(Undef); }
        case LErr => r := Val(Err);
      }
    }

    // The lazy function form: an undefined condition evaluates neither branch.
    method Choose(c: Expr, t: Expr, f: Expr) returns (r: Outcome)
      requires Valid() && 0 < depth <= MAX_EVAL_DEPTH
      modifies this
      ensures Valid() && r == EvalIn(ads, sem, old(classad), IfThenElse(c, t, f), old(depth) - 1, old(evaluating))
      ensures classad == old(classad) && evaluating == old(evaluating) && (r.Val? ==> depth == old(depth))
      decreases MAX_EVAL_DEPTH - depth, 2
    {
      hide View, Resolve;
      r := Evaluate(c);
      if !r.Val? { return; }
      match View(sem, r.v) {
        case LTrue => r := Evaluate(t);
        case LFalse => r := Evaluate(f);
        case LUndef => r := Val(Undef);
        case LErr => r := Val(Err);
      }
    }

    // Mark the attribute, rebind the current ad, evaluate, and undo both; a literal needs neither.
    method EvalAttrExpr(ad: nat, name: Name) returns (r: Outcome)
      requires Valid() && depth <= MAX_EVAL_DEPTH && ad < |ads| && name in ads[ad].attrs
      modifies this
      ensures Valid() && r == (var x := ads[ad].attrs[name];
        if x.Lit? then EvalIn(ads, sem, old(classad), x, old(depth), old(evaluating))
        else if (ad, name) in old(evaluating) then Cyclic
        else EvalIn(ads, sem, Some(ad), x, old(depth), old(evaluating) + {(ad, name)}))
      ensures classad == old(classad) && evaluating == old(evaluating) && (r.Val? ==> depth == old(depth))
      decreases MAX_EVAL_DEPTH - depth, 2
    {
      hide EvalIn;
      var x := ads[ad].attrs[name];
      if x.Lit? {
        r := Evaluate(x);
        return;
      }
      if (ad, name) in evaluating { return Cyclic; }
      evaluating := evaluating + {(ad, name)};
      var saved := classad;
      classad := Some(ad);
      r := Evaluate(x);
      classad := saved;
      evaluating := evaluating - {(ad, name)};
    }

    // Evaluate an element of a lazy list: a panic becomes its error value, and everything, the depth included,
    // ends as it began, so the next element starts where this one did.
    method EvalRecoveringCyclic(e: Expr) returns (v: Value)
      requires Valid()
      modifies this
      ensures Valid() && v == Recovered(EvalIn(ads, sem, old(classad), e, old(depth), old(evaluating)))
      ensures classad == old(classad) && evaluating == old(evaluating) && depth == old(depth)
    {
      hide EvalIn;
      var saved := depth;
      var r := Evaluate(e);
      depth := saved;
      v := Recovered(r);
    }

    // Materialise a lazy list in the scope it was made in, no shallower than it was made or than here: every
    // element has the value it would have alone, whatever became of those before it.
    method ListValue(scope: Option<nat>, made: nat, es: seq<Expr>) returns (vals: seq<Value>)
      requires Valid() && (scope.Some? ==> scope.value < |ads|)
      ensures |vals| == |es|
      ensures forall i ::
        0 <= i < |es| ==>
          vals[i] == Recovered(EvalIn(ads, sem, scope, es[i], if depth > made then depth else made, evaluating))
    {
      hide EvalIn, Recovered;
      var ev := new Evaluator(ads, sem, scope, if depth > made then depth else made, evaluating);
      vals := [];
      for i := 0 to |es|
        invariant fresh(ev) && ev.Valid() && ev.ads == ads && ev.sem == sem && ev.classad == scope &&
          ev.evaluating == evaluating
        invariant ev.depth == if depth > made then depth else made
        invariant |vals| == i && forall j ::
          0 <= j < i ==> vals[j] == Recovered(EvalIn(ads, sem, scope, es[j], ev.depth, evaluating))
      {
        var v := ev.EvalRecoveringCyclic(es[i]);
        vals := vals + [v];
      }
    }
  }

  // ---------------------------------------------------------------- reference walks

  // A reference somewhere in an expression.
  predicate Mentions(e: Expr, scope: Scope, name: Name)
  {
    match e
    case Ref(s, n) => s == scope && n == name
    case _ => exists x :: x in Operands(e) && Mentions(x, scope, name)
  }

  // Expression e, evaluated in an ad, refers to attribute m, which is not a literal.
  ghost predicate Refers(ads: seq<Ad>, cur: Option<nat>, e: Expr, m: Mark)
    requires WorldOK(ads) && (cur.Some? ==> cur.value < |ads|)
  {
    && m.0 < |ads| && m.1 in ads[m.0].attrs && !ads[m.0].attrs[m.1].Lit?
    && exists scope :: Mentions(e, scope, m.1) && Resolve(ads, cur, scope, m.1) == Some(m.0)
  }

  // A chain of references starting in e.
  ghost predicate Walk(ads: seq<Ad>, cur: Option<nat>, e: Expr, w: seq<Mark>)
    requires WorldOK(ads) && (cur.Some? ==> cur.value < |ads|)
    decreases |w|
  {
    w == [] || (Refers(ads, cur, e, w[0]) && Walk(ads, Some(w[0].0), ads[w[0].0].attrs[w[0].1], w[1..]))
  }

  ghost predicate Fresh(w: seq<Mark>, marks: set<Mark>)
  {
    (forall i :: 0 <= i < |w| ==> w[i] !in marks) && forall i, j :: 0 <= i < j < |w| ==> w[i] != w[j]
  }

  // A chain that comes back to an attribute it has passed.
  ghost predicate CycleReachable(ads: seq<Ad>, cur: Option<nat>, e: Expr)
    requires WorldOK(ads) && (cur.Some? ==> cur.value < |ads|)
  {
    exists w :: Walk(ads, cur, e, w) && !Fresh(w, {})
  }

  // Only operators that evaluate every operand.
  predicate Strict(e: Expr)
    decreases e
  {
    (e.Lit? || e.Ref? || e.Paren? || e.Un? || e.Bin?) && forall x :: x in Operands(e) ==> Strict(x)
  }

  ghost predicate StrictWorld(ads: seq<Ad>)
  {
    forall i: nat, name: Name {:trigger ads[i].attrs[name]} ::
      i < |ads| && name in ads[i].attrs ==> Strict(ads[i].attrs[name])
  }

  // In a strict expression a value means every reference inside was evaluated to one.
  lemma {:induction false} EveryReferenceEvaluated(ads: seq<Ad>, sem: Sem, cur: Option<nat>, e: Expr, d: nat,
                                                   marks: set<Mark>, scope: Scope, name: Name)
    returns (d': nat)
    requires WorldOK(ads) && (cur.Some? ==> cur.value < |ads|) && Strict(e) && Mentions(e, scope, name)
    requires EvalIn(ads, sem, cur, e, d, marks).Val?
    ensures EvalIn(ads, sem, cur, Ref(scope, name), d', marks).Val?
    decreases e
  {
    if e.Ref? {
      d' := d;
    } else {
      var x :| x in Operands(e) && Mentions(x, scope, name);
      OperandValue(ads, sem, cur, e, d, marks, x);
      d' := EveryReferenceEvaluated(ads, sem, cur, x, d + 1, marks, scope, name);
    }
  }

  lemma OperandValue(ads: seq<Ad>, sem: Sem, cur: Option<nat>, e: Expr, d: nat, marks: set<Mark>, x: Expr)
    requires WorldOK(ads) && (cur.Some? ==> cur.value < |ads|) && Strict(e) && x in Operands(e)
    requires EvalIn(ads, sem, cur, e, d, marks).Val?
    ensures EvalIn(ads, sem, cur, x, d + 1, marks).Val?
  {
    hide Resolve, Mentions, View, AndV, OrV;
  }

  // If evaluation of a strict expression yields a value, no chain of references repeats or meets a mark.
  lemma {:induction false} ValueHasNoCycle(ads: seq<Ad>, sem: Sem, cur: Option<nat>, e: Expr, d: nat, marks: set<Mark>,
                                           w: seq<Mark>)
    requires WorldOK(ads) && StrictWorld(ads) && (cur.Some? ==> cur.value < |ads|) && Strict(e)
    requires EvalIn(ads, sem, cur, e, d, marks).Val? && Walk(ads, cur, e, w)
    ensures Fresh(w, marks)
    decreases |w|
  {
    if w != [] {
      hide Resolve, Mentions, View, AndV, OrV, Fresh;
      var m := w[0];
      var scope :| Mentions(e, scope, m.1) && Resolve(ads, cur, scope, m.1) == Some(m.0);
      var d' := EveryReferenceEvaluated(ads, sem, cur, e, d, marks, scope, m.1);
      ValueHasNoCycle(ads, sem, Some(m.0), ads[m.0].attrs[m.1], d' + 1, marks + {m}, w[1..]);
      FreshHead(w, marks);
    }
  }

  lemma FreshHead(w: seq<Mark>, marks: set<Mark>)
    requires w != [] && w[0] !in marks && Fresh(w[1..], marks + {w[0]})
    ensures Fresh(w, marks)
  {
    forall i | 0 <= i < |w| ensures w[i] !in marks { if i > 0 { assert w[i] == w[1..][i - 1]; } }
    forall i, j | 0 <= i < j < |w| ensures w[i] != w[j] {
      assert w[j] == w[1..][j - 1];
      if i > 0 { assert w[i] == w[1..][i - 1]; }
    }
  }

  lemma RefersUp(ads: seq<Ad>, cur: Option<nat>, x: Expr, e: Expr, w: seq<Mark>)
    requires WorldOK(ads) && (cur.Some? ==> cur.value < |ads|) && Walk(ads, cur, x, w) && x in Operands(e)
    ensures Walk(ads, cur, e, w)
  {
    forall scope, name | Mentions(x, scope, name) ensures Mentions(e, scope, name) {}
    hide Mentions, Resolve;
  }

  // A panic comes from some operand, or from the reference or the bound itself.
  lemma PanicFrom(ads: seq<Ad>, sem: Sem, cur: Option<nat>, e: Expr, d: nat, marks: set<Mark>) returns (x: Expr)
    requires WorldOK(ads) && (cur.Some? ==> cur.value < |ads|) && d < MAX_EVAL_DEPTH && !e.Ref?
    requires !EvalIn(ads, sem, cur, e, d, marks).Val?
    ensures x in Operands(e) && EvalIn(ads, sem, cur, x, d + 1, marks) == EvalIn(ads, sem, cur, e, d, marks)
  {
    hide Resolve, View, AndV, OrV;
    match e
    case Paren(a) => x := a;
    case Un(_, a) => x := a;
    case Bin(_, l, r) => x := if EvalIn(ads, sem, cur, l, d + 1, marks).Val? then r else l;
    case And(l, r) => x := if EvalIn(ads, sem, cur, l, d + 1, marks).Val? then r else l;
    case Or(l, r) => x := if EvalIn(ads, sem, cur, l, d + 1, marks).Val? then r else l;
    case Elvis(l, r) => x := if EvalIn(ads, sem, cur, l, d + 1, marks).Val? then r else l;
    case Cond(c, t, f) =>
      var a := EvalIn(ads, sem, cur, c, d + 1, marks);
      x := if !a.Val? then c else if View(sem, a.v) == LFalse || EvalIn(ads, sem, cur, t, d + 1, marks).Val? then
        f else t;
    case IfThenElse(c, t, f) =>
      var a := EvalIn(ads, sem, cur, c, d + 1, marks);
      x := if !a.Val? then c else if View(sem, a.v) == LTrue then t else f;
  }

  // If evaluation reports a cycle, some chain ends at an attribute that is marked or already on it.
  lemma {:induction false} CycleHasWalk(ads: seq<Ad>, sem: Sem, cur: Option<nat>, e: Expr, d: nat, marks: set<Mark>)
    returns (w: seq<Mark>)
    requires WorldOK(ads) && (cur.Some? ==> cur.value < |ads|) && EvalIn(ads, sem, cur, e, d, marks).Cyclic?
    ensures Walk(ads, cur, e, w) && !Fresh(w, marks)
    decreases MAX_EVAL_DEPTH - d
  {
    if e.Ref? {
      w := RefCycle(ads, sem, cur, e.scope, e.name, d, marks);
    } else {
      var x := PanicFrom(ads, sem, cur, e, d, marks);
      w := CycleHasWalk(ads, sem, cur, x, d + 1, marks);
      RefersUp(ads, cur, x, e, w);
    }
  }

  lemma {:induction false} RefCycle(ads: seq<Ad>, sem: Sem, cur: Option<nat>, scope: Scope, name: Name, d: nat,
                                    marks: set<Mark>)
    returns (w: seq<Mark>)
    requires WorldOK(ads) && (cur.Some? ==> cur.value < |ads|)
    requires EvalIn(ads, sem, cur, Ref(scope, name), d, marks).Cyclic?
    ensures Walk(ads, cur, Ref(scope, name), w) && !Fresh(w, marks)
    decreases MAX_EVAL_DEPTH - d, 0
  {
    hide Resolve;
    var m := (Resolve(ads, cur, scope, name).value, name);
    assert Refers(ads, cur, Ref(scope, name), m) by { assert Mentions(Ref(scope, name), scope, name); }
    if m in marks {
      w := [m];
      assert w[1..] == [];
      assert w[0] in marks;
    } else {
      var rest := CycleHasWalk(ads, sem, Some(m.0), ads[m.0].attrs[name], d + 1, marks + {m});
      w := [m] + rest;
      assert w[1..] == rest;
      NotFresh(m, rest, marks);
    }
  }

  lemma NotFresh(m: Mark, rest: seq<Mark>, marks: set<Mark>)
    requires !Fresh(rest, marks + {m})
    ensures !Fresh([m] + rest, marks)
  {
    var w := [m] + rest;
    if Fresh(w, marks) {
      forall i | 0 <= i < |rest| ensures rest[i] !in marks + {m} { assert w[i + 1] == rest[i] && w[0] == m; }
      forall i, j | 0 <= i < j < |rest|
        ensures rest[i] != rest[j]
      {
        assert w[i + 1] == rest[i] && w[j + 1] == rest[j];
      }
    }
  }

  // Whatever the operators, evaluation fails as cyclic only when a reference cycle is reachable.
  lemma CyclicMeans(ads: seq<Ad>, sem: Sem, cur: Option<nat>, e: Expr, d: nat)
    requires WorldOK(ads) && (cur.Some? ==> cur.value < |ads|) && EvalIn(ads, sem, cur, e, d, {}).Cyclic?
    ensures CycleReachable(ads, cur, e)
  {
    hide EvalIn, Walk;
    var w := CycleHasWalk(ads, sem, cur, e, d, {});
    assert Walk(ads, cur, e, w) && !Fresh(w, {});
  }

  // Of strict expressions, unless the depth bound is hit, it does so exactly then.
  lemma CyclicExactly(ads: seq<Ad>, sem: Sem, cur: Option<nat>, e: Expr, d: nat)
    requires WorldOK(ads) && StrictWorld(ads) && (cur.Some? ==> cur.value < |ads|) && Strict(e)
    requires !EvalIn(ads, sem, cur, e, d, {}).TooDeep?
    ensures EvalIn(ads, sem, cur, e, d, {}).Cyclic? <==> CycleReachable(ads, cur, e)
  {
    hide EvalIn, Walk, StrictWorld;
    if EvalIn(ads, sem, cur, e, d, {}).Cyclic? {
      CyclicMeans(ads, sem, cur, e, d);
    } else if CycleReachable(ads, cur, e) {
      var w :| Walk(ads, cur, e, w) && !Fresh(w, {});
      ValueHasNoCycle(ads, sem, cur, e, d, {}, w);
    }
  }

  // A short circuit can pass a reachable cycle by: false && a, in an ad whose a is a.
  lemma CycleNotReached(sem: Sem)
    ensures var a := Ref(Unscoped, "a"); var e := And(Lit(B(false)), a); var ads := [Ad(map["a" := a], None, None)];
      WorldOK(ads) && CycleReachable(ads, Some(0), e) && EvalIn(ads, sem, Some(0), e, 0, {}) == Val(B(false))
  {
    var a := Ref(Unscoped, "a");
    var e, ads := And(Lit(B(false)), a), [Ad(map["a" := a], None, None)];
    SelfCycle(ads, a, e);
    assert EvalIn(ads, sem, Some(0), Lit(B(false)), 1, {}) == Val(B(false));
  }

  lemma SelfCycle(ads: seq<Ad>, a: Expr, e: Expr)
    requires WorldOK(ads) && a == Ref(Unscoped, "a") && ads == [Ad(map["a" := a], None, None)] && a in Operands(e)
    requires !e.Ref?
    ensures CycleReachable(ads, Some(0), e)
  {
    var m: Mark := (0, "a");
    assert Mentions(a, Unscoped, "a") && Mentions(e, Unscoped, "a");
    hide Mentions;
    assert Resolve(ads, Some(0), Unscoped, "a") == Some(0);
    assert Refers(ads, Some(0), e, m) && Refers(ads, Some(0), a, m);
    hide Refers;
    assert [m, m][1..] == [m] && [m][1..] == [];
    assert Walk(ads, Some(0), a, []) && Walk(ads, Some(0), a, [m]) && Walk(ads, Some(0), e, [m, m]);
    assert [m, m][0] == [m, m][1];
  }

  // ---------------------------------------------------------------- the depth bound

  function Max(a: nat, b: nat): (m: nat) { if a > b then a else b }

  // Evaluation levels an expression itself takes.
  function Height(e: Expr): (h: nat)
    ensures h > 0
  {
    match e
    case Lit(_) => 1
    case Ref(_, _) => 1
    case Paren(x) => 1 + Height(x)
    case Un(_, x) => 1 + Height(x)
    case Bin(_, l, r) => 1 + Max(Height(l), Height(r))
    case And(l, r) => 1 + Max(Height(l), Height(r))
    case Or(l, r) => 1 + Max(Height(l), Height(r))
    case Cond(c, t, f) => 1 + Max(Height(c), Max(Height(t), Height(f)))
    case Elvis(l, r) => 1 + Max(Height(l), Height(r))
    case IfThenElse(c, t, f) => 1 + Max(Height(c), Max(Height(t), Height(f)))
  }

  lemma OperandHeight(e: Expr, x: Expr)
    requires x in Operands(e)
    ensures Height(x) < Height(e)
  {
  }

  // Levels along a chain of references.
  ghost function Levels(ads: seq<Ad>, w: seq<Mark>): nat
  {
    if w == [] then 0
    else
      (if w[0].0 < |ads| && w[0].1 in ads[w[0].0].attrs then Height(ads[w[0].0].attrs[w[0].1]) else 0) +
        Levels(ads, w[1..])
  }

  // The bound is hit only along a chain of references, none repeated, whose expressions nest that deep.
  lemma {:induction false} TooDeepIsDeep(ads: seq<Ad>, sem: Sem, cur: Option<nat>, e: Expr, d: nat, marks: set<Mark>)
    returns (w: seq<Mark>)
    requires WorldOK(ads) && (cur.Some? ==> cur.value < |ads|) && EvalIn(ads, sem, cur, e, d, marks).TooDeep?
    ensures Walk(ads, cur, e, w) && Fresh(w, marks) && d + Height(e) + Levels(ads, w) >= MAX_EVAL_DEPTH
    decreases MAX_EVAL_DEPTH - d
  {
    hide View, AndV, OrV, Height, Resolve, Mentions;
    if d >= MAX_EVAL_DEPTH {
      w := [];
    } else if e.Ref? {
      w := RefDeep(ads, sem, cur, e.scope, e.name, d, marks);
    } else {
      var x := PanicFrom(ads, sem, cur, e, d, marks);
      w := TooDeepIsDeep(ads, sem, cur, x, d + 1, marks);
      OperandHeight(e, x);
      RefersUp(ads, cur, x, e, w);
    }
  }

  lemma {:induction false} RefDeep(ads: seq<Ad>, sem: Sem, cur: Option<nat>, scope: Scope, name: Name, d: nat,
                                   marks: set<Mark>)
    returns (w: seq<Mark>)
    requires WorldOK(ads) && (cur.Some? ==> cur.value < |ads|) && d < MAX_EVAL_DEPTH
    requires EvalIn(ads, sem, cur, Ref(scope, name), d, marks).TooDeep?
    ensures Walk(ads, cur, Ref(scope, name), w) && Fresh(w, marks) && d + 1 + Levels(ads, w) >= MAX_EVAL_DEPTH
    decreases MAX_EVAL_DEPTH - d, 0
  {
    hide Resolve;
    var m := (Resolve(ads, cur, scope, name).value, name);
    var x := ads[m.0].attrs[name];
    if x.Lit? {
      w := [];
    } else {
      assert Refers(ads, cur, Ref(scope, name), m) by { assert Mentions(Ref(scope, name), scope, name); }
      var rest := TooDeepIsDeep(ads, sem, Some(m.0), x, d + 1, marks + {m});
      w := [m] + rest;
      assert w[1..] == rest;
    }
  }

  // ---------------------------------------------------------------- the entry point

  // The value of an ad's attribute: undefined when it has none, or the time for CurrentTime, and otherwise what its
  // expression evaluates to, an error for a panic. A strict attribute from which a cycle is reachable is always an
  // error.
  method EvaluateAttr(ads: seq<Ad>, sem: Sem, start: nat, name: Name) returns (v: Value)
    requires WorldOK(ads) && start < |ads|
    ensures name !in ads[start].attrs ==> v == if name == CURRENT_TIME then I(sem.now) else Undef
    ensures name in ads[start].attrs ==> v == Recovered(EvalIn(ads, sem, Some(start), ads[start].attrs[name], 0, {}))
    ensures StrictWorld(ads) && name in ads[start].attrs ==>
      CycleReachable(ads, Some(start), ads[start].attrs[name]) ==> v == Err
  {
    hide EvalIn, CycleReachable, Strict;
    if name !in ads[start].attrs { return if name == CURRENT_TIME then I(sem.now) else Undef; }
    var x := ads[start].attrs[name];
    var e := new Evaluator(ads, sem, Some(start), 0, {});
    var o := e.Evaluate(x);
    v := Recovered(o);
    if StrictWorld(ads) && !o.TooDeep? { CyclicExactly(ads, sem, Some(start), x, 0); }
  }
}
