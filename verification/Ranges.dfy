/** Reading a constraint as a conjunction of numeric ranges, and when that says what the evaluator says. */
module Ranges {
  import opened Bytes
  import W = Wire
  import opened Floats
  import opened Preds
  import opened F = Folding

  // ---------------------------------------------------------------- how the evaluator compares

  // A number, coerced: booleans count as 1 and 0.
  predicate IsNum(v: Value) { v.I? || v.R? || v.B? }

  predicate IsInt(v: Value) { v.I? || v.B? }

  function IntOf(v: Value): (i: int) { match v case I(i) => i case B(b) => if b then 1 else 0 case _ => 0 }

  function FloatOf(v: Value): (f: F64) { if v.R? then OfBits(v.bits) else OfInt(IntOf(v)) }

  // Order goes through float64; equality of two integers does not.
  function CompareNums(op: Op, a: Value, b: Value): (r: bool)
  {
    if op == OEq && IsInt(a) && IsInt(b) then IntOf(a) == IntOf(b) else Compare(op, FloatOf(a), FloatOf(b))
  }

  function OpOf(s: string): (r: Option<Op>)
  {
    if s == "<" then Some(OLt) else if s == "<=" then Some(OLe) else if s == ">" then Some(OGt) else if s == ">=" then
      Some(OGe)
    else if s == "==" then Some(OEq) else None
  }

  // The evaluator's comparisons of two scalars, one of them a number.
  ghost predicate Compares(sem: Sem)
  {
    forall s: string, a: Value, b: Value {:trigger sem.bin(s, a, b)} :: OpOf(s).Some? && (IsNum(a) || IsNum(b)) ==>
      sem.bin(s, a, b) ==
        if a == Err || b == Err then Err
        else if a == Undef || b == Undef then Undef
        else if IsNum(a) && IsNum(b) then B(CompareNums(OpOf(s).value, a, b))
        else Err
  }

  // ---------------------------------------------------------------- reading the constraint

  datatype RangeCond = RangeCond(name: string, op: Op, val: F64)

  function PlainAttr(e: Expr): (r: Option<string>)
  {
    match e
    case Paren(x) => PlainAttr(x)
    case Ref(scope, name) => if scope == Unscoped then Some(name) else None
    case _ => None
  }

  function NumericLiteral(e: Expr): (r: Option<Value>)
    ensures r.Some? ==> r.value.I? || r.value.R?
  {
    match e case Paren(x) => NumericLiteral(x) case Lit(v) => if v.I? || v.R? then Some(v) else None case _ => None
  }

  function Mirror(op: Op): (r: Op)
  {
    match op case OLt => OGt case OLe => OGe case OGt => OLt case OGe => OLe case _ => op
  }

  // `attr op number`, or `number op attr` turned round.
  function AsRangeCond(s: string, l: Expr, r: Expr): (c: Option<RangeCond>)
  {
    if OpOf(s).None? then None
    else if PlainAttr(l).Some? then
      (if NumericLiteral(r).Some? then
        Some(RangeCond(PlainAttr(l).value, OpOf(s).value, FloatOf(NumericLiteral(r).value))) else None)
    else if PlainAttr(r).Some? && NumericLiteral(l).Some? then
      Some(RangeCond(PlainAttr(r).value, Mirror(OpOf(s).value), FloatOf(NumericLiteral(l).value)))
    else None
  }

  // Comparisons joined by &&, in the order they are written; anything else refuses the whole constraint.
  function Parse(e: Expr): (r: Option<seq<RangeCond>>)
    ensures r.Some? ==> r.value != []
  {
    match e
    case Paren(x) => Parse(x)
    case And(l, r) =>
      (match Parse(l) case None => None case Some(a) => match Parse(r) case None => None case Some(b) => Some(a + b))
    case Bin(s, l, r) => (match AsRangeCond(s, l, r) case None => None case Some(c) => Some([c]))
    case _ => None
  }

  // Without the parentheses around it.
  function Bare(e: Expr): (r: Expr)
  {
    if e.Paren? then Bare(e.e) else e
  }

  predicate IsAttr(e: Expr) { Bare(e).Ref? && Bare(e).scope == Unscoped }

  predicate IsNumber(e: Expr) { Bare(e).Lit? && (Bare(e).v.I? || Bare(e).v.R?) }

  // Comparisons of an attribute with a number, either way round, joined by &&, with parentheses anywhere.
  predicate Accepted(e: Expr)
    decreases e
  {
    match e
    case Paren(x) => Accepted(x)
    case And(l, r) => Accepted(l) && Accepted(r)
    case Bin(s, l, r) => s in ["<", "<=", ">", ">=", "=="] && ((IsAttr(l) && IsNumber(r)) || (IsNumber(l) && IsAttr(r)))
    case _ => false
  }

  // Exactly those constraints are read.
  lemma {:induction false} ParseExactly(e: Expr)
    ensures Parse(e).Some? <==> Accepted(e)
    decreases e
  {
    match e
    case Paren(x) => ParseExactly(x);
    case And(l, r) =>
      ParseExactly(l);
      ParseExactly(r);
    case Bin(s, l, r) =>
      TermExactly(l);
      TermExactly(r);
    case _ =>
  }

  lemma {:induction false} TermExactly(e: Expr)
    ensures (PlainAttr(e).Some? <==> IsAttr(e)) && (NumericLiteral(e).Some? <==> IsNumber(e))
    decreases e
  {
    if e.Paren? { TermExactly(e.e); }
  }

  // ---------------------------------------------------------------- what the conditions say of a record

  function LitValue(l: W.Literal): (v: Value)
  {
    match l
    case LUndef => Undef
    case LError => Err
    case LBool(b) => B(b)
    case LInt(i) => I(i)
    case LReal(bits) => R(bits)
    case LStr(s) => S(s)
  }

  // Unscoped references read the record: a literal's value, or undefined where it has none. An attribute held
  // as an expression may come to anything; the clock is not read from the record.
  ghost predicate Reads(rho: Resolver, ad: seq<W.Entry>, idOf: string -> nat)
  {
    forall name: string {:trigger rho(Unscoped, name)} :: name != CURRENT_TIME ==>
      match W.Lookup(ad, idOf(name)) case None => rho(Unscoped, name) ==
        Val(Undef) case Some(Lit(l)) => rho(Unscoped, name) == Val(LitValue(l)) case Some(Expr(_)) => true
  }

  predicate Literal(ad: seq<W.Entry>, id: nat) { match W.Lookup(ad, id) case Some(Expr(_)) => false case _ => true }

  predicate CondHolds(c: RangeCond, ad: seq<W.Entry>, idOf: string -> nat)
  {
    ProbeHolds(Probe(idOf(c.name), Test(c.op, c.val)), ad)
  }

  ghost predicate CondsHold(cs: seq<RangeCond>, ad: seq<W.Entry>, idOf: string -> nat)
  {
    forall i :: 0 <= i < |cs| ==> CondHolds(cs[i], ad, idOf)
  }

  ghost predicate LiteralOnly(cs: seq<RangeCond>, ad: seq<W.Entry>, idOf: string -> nat)
  {
    forall i :: 0 <= i < |cs| ==> Literal(ad, idOf(cs[i].name))
  }

  // A condition of the value a reference comes to.
  predicate ReadHolds(c: RangeCond, rho: Resolver)
  {
    var o := rho(Unscoped, c.name);
    o.Val? && IsNum(o.v) && Compare(c.op, FloatOf(o.v), c.val)
  }

  ghost predicate ReadsHold(cs: seq<RangeCond>, rho: Resolver)
  {
    forall i :: 0 <= i < |cs| ==> ReadHolds(cs[i], rho)
  }

  // The probes the counts are made of.
  function ProbesOf(cs: seq<RangeCond>, idOf: string -> nat): (qs: seq<Probe>)
    ensures |qs| == |cs| && forall i :: 0 <= i < |cs| ==> qs[i] == Probe(idOf(cs[i].name), Test(cs[i].op, cs[i].val))
  {
    seq(|cs|, i requires 0 <= i < |cs| => Probe(idOf(cs[i].name), Test(cs[i].op, cs[i].val)))
  }

  // An equality of two distinct integers that share a float64.
  predicate MergedPair(s: string, a: Value, b: Value)
  {
    s == "==" && IsInt(a) && IsInt(b) && IntOf(a) != IntOf(b) && OfInt(IntOf(a)) == OfInt(IntOf(b))
  }

  predicate OutcomesMerge(s: string, a: Outcome, b: Outcome) { a.Val? && b.Val? && MergedPair(s, a.v, b.v) }

  // Some comparison of the constraint is such an equality.
  predicate SomeMerged(sem: Sem, rho: Resolver, e: Expr)
  {
    match e
    case Paren(x) => SomeMerged(sem, rho, x)
    case And(l, r) => SomeMerged(sem, rho, l) || SomeMerged(sem, rho, r)
    case Bin(s, l, r) => OutcomesMerge(s, F.Eval(sem, rho, l), F.Eval(sem, rho, r))
    case _ => false
  }

  // ---------------------------------------------------------------- one comparison

  lemma {:induction false} PlainAttrEval(sem: Sem, rho: Resolver, e: Expr)
    requires PlainAttr(e).Some?
    ensures F.Eval(sem, rho, e) == rho(Unscoped, PlainAttr(e).value)
    decreases e
  {
    if e.Paren? { PlainAttrEval(sem, rho, e.e); }
  }

  lemma {:induction false} NumericLiteralEval(sem: Sem, rho: Resolver, e: Expr)
    requires NumericLiteral(e).Some?
    ensures F.Eval(sem, rho, e) == Val(NumericLiteral(e).value)
    decreases e
  {
    if e.Paren? { NumericLiteralEval(sem, rho, e.e); }
  }

  // A number compared through float64 and as the evaluator does: the same, but for merged integers.
  lemma NumberCompare(op: Op, s: string, v: Value, c: Value)
    requires IsNum(v) && (c.I? || c.R?) && OpOf(s) == Some(op)
    ensures Compare(op, FloatOf(v), FloatOf(c)) <==> CompareNums(op, v, c) || MergedPair(s, v, c)
    ensures MergedPair(s, v, c) ==> !CompareNums(op, v, c)
  {
    hide OfInt, OfBits;
    Finite(IntOf(v));
  }

  // The record's own entry answers for a condition exactly when it is a literal and the value read satisfies it.
  lemma CondRead(rho: Resolver, c: RangeCond, ad: seq<W.Entry>, idOf: string -> nat)
    requires Reads(rho, ad, idOf) && c.name != CURRENT_TIME
    ensures CondHolds(c, ad, idOf) <==> Literal(ad, idOf(c.name)) && ReadHolds(c, rho)
  {
    hide OfInt, OfBits, Compare;
    var o := rho(Unscoped, c.name);
  }

  lemma BinStuck(sem: Sem, rho: Resolver, s: string, l: Expr, r: Expr)
    requires !F.Eval(sem, rho, l).Val? || !F.Eval(sem, rho, r).Val?
    ensures !F.Eval(sem, rho, Bin(s, l, r)).Val? && !SomeMerged(sem, rho, Bin(s, l, r))
  {
  }

  lemma BinOutcome(sem: Sem, rho: Resolver, s: string, l: Expr, r: Expr, a: Value, b: Value)
    requires F.Eval(sem, rho, l) == Val(a) && F.Eval(sem, rho, r) == Val(b)
    ensures F.Eval(sem, rho, Bin(s, l, r)) == Val(sem.bin(s, a, b)) &&
      SomeMerged(sem, rho, Bin(s, l, r)) == MergedPair(s, a, b)
  {
  }

  lemma Finite(i: int)
    ensures !OfInt(i).NaN?
  {
  }

  lemma Turned(op: Op, a: Value, b: Value)
    ensures Compare(Mirror(op), FloatOf(b), FloatOf(a)) <==>
      (if op == ONe then Compare(ONe, FloatOf(b), FloatOf(a)) else Compare(op, FloatOf(a), FloatOf(b)))
  {
    hide OfInt, OfBits;
  }

  // The outcome of a comparison the reader accepts.
  ghost predicate LeafAgrees(sem: Sem, rho: Resolver, e: Expr, c: RangeCond)
  {
    var o := F.Eval(sem, rho, e);
    && (o.Val? ==> o.v.B? || o.v.Undef? || o.v.Err?)
    && (SomeMerged(sem, rho, e) ==> ReadHolds(c, rho) && o != Val(B(true)))
    && (!SomeMerged(sem, rho, e) ==> (ReadHolds(c, rho) <==> o == Val(B(true))))
  }

  lemma LeafLeft(sem: Sem, rho: Resolver, s: string, l: Expr, r: Expr)
    requires Compares(sem) && OpOf(s).Some? && PlainAttr(l).Some? && NumericLiteral(r).Some?
    ensures LeafAgrees(sem, rho, Bin(s, l, r),
      RangeCond(PlainAttr(l).value, OpOf(s).value, FloatOf(NumericLiteral(r).value)))
  {
    hide FloatOf, CompareNums, Compare, OpOf, PlainAttr, NumericLiteral, F.Eval, SomeMerged, MergedPair;
    var name, c, op := PlainAttr(l).value, NumericLiteral(r).value, OpOf(s).value;
    PlainAttrEval(sem, rho, l);
    NumericLiteralEval(sem, rho, r);
    if rho(Unscoped, name).Val? {
      var v := rho(Unscoped, name).v;
      BinOutcome(sem, rho, s, l, r, v, c);
      MergedNums(s, v, c);
      if IsNum(v) { NumberCompare(op, s, v, c); }
    } else {
      BinStuck(sem, rho, s, l, r);
    }
  }

  lemma MergedNums(s: string, a: Value, b: Value)
    ensures MergedPair(s, a, b) ==> IsNum(a) && IsNum(b)
    ensures MergedPair(s, a, b) <==> MergedPair(TurnedName(s), b, a)
  {
    hide OfInt;
  }

  lemma NumbersTurned(op: Op, a: Value, b: Value)
    requires op != ONe
    ensures CompareNums(op, a, b) <==> CompareNums(Mirror(op), b, a)
  {
    hide FloatOf;
    Turned(op, a, b);
  }

  function TurnedName(s: string): (r: string)
  {
    if s == "<" then ">" else if s == "<=" then ">=" else if s == ">" then "<" else if s == ">=" then "<=" else s
  }

  lemma TurnedOp(s: string)
    requires OpOf(s).Some?
    ensures OpOf(TurnedName(s)) == Some(Mirror(OpOf(s).value)) && OpOf(s) != Some(ONe)
    ensures TurnedName(s) == "==" <==> s == "=="
  {
  }

  lemma LeafRight(sem: Sem, rho: Resolver, s: string, l: Expr, r: Expr)
    requires Compares(sem) && OpOf(s).Some? && PlainAttr(r).Some? && NumericLiteral(l).Some?
    ensures LeafAgrees(sem, rho, Bin(s, l, r),
      RangeCond(PlainAttr(r).value, Mirror(OpOf(s).value), FloatOf(NumericLiteral(l).value)))
  {
    hide FloatOf, CompareNums, Compare, OpOf, PlainAttr, NumericLiteral, F.Eval, SomeMerged, MergedPair, Mirror,
      TurnedName;
    var name, c, op := PlainAttr(r).value, NumericLiteral(l).value, OpOf(s).value;
    PlainAttrEval(sem, rho, r);
    NumericLiteralEval(sem, rho, l);
    if rho(Unscoped, name).Val? {
      var v := rho(Unscoped, name).v;
      BinOutcome(sem, rho, s, l, r, c, v);
      MergedNums(s, c, v);
      TurnedOp(s);
      NumbersTurned(op, c, v);
      if IsNum(v) { NumberCompare(Mirror(op), TurnedName(s), v, c); }
    } else {
      BinStuck(sem, rho, s, l, r);
    }
  }

  // ---------------------------------------------------------------- the whole constraint

  lemma ReadsSplit(a: seq<RangeCond>, b: seq<RangeCond>, rho: Resolver)
    ensures ReadsHold(a + b, rho) <==> ReadsHold(a, rho) && ReadsHold(b, rho)
  {
    hide ReadHolds;
    var s := a + b;
    assert (forall i :: 0 <= i < |a| ==> s[i] == a[i]) && forall i :: 0 <= i < |b| ==> s[|a| + i] == b[i];
  }

  // The evaluator finds a constraint true exactly when every condition read out of it holds of the value its
  // attribute comes to, and none of them through an equality of merged integers.
  lemma {:induction false} ParsedMeans(sem: Sem, rho: Resolver, e: Expr)
    requires Compares(sem) && Parse(e).Some?
    ensures F.Eval(sem, rho, e).Val? ==>
      F.Eval(sem, rho, e).v.B? || F.Eval(sem, rho, e).v.Undef? || F.Eval(sem, rho, e).v.Err?
    ensures F.Eval(sem, rho, e) == Val(B(true)) <==> ReadsHold(Parse(e).value, rho) && !SomeMerged(sem, rho, e)
    decreases e
  {
    hide ReadHolds, Compares, AsRangeCond, ReadsHold;
    match e
    case Paren(x) => ParsedMeans(sem, rho, x);
    case And(l, r) =>
      ReadsSplit(Parse(l).value, Parse(r).value, rho);
      ParsedMeans(sem, rho, l);
      ParsedMeans(sem, rho, r);
    case Bin(s, l, r) => LeafMeans(sem, rho, s, l, r);
  }

  lemma LeafMeans(sem: Sem, rho: Resolver, s: string, l: Expr, r: Expr)
    requires Compares(sem) && AsRangeCond(s, l, r).Some?
    ensures LeafAgrees(sem, rho, Bin(s, l, r), AsRangeCond(s, l, r).value)
    ensures ReadsHold([AsRangeCond(s, l, r).value], rho) <==> ReadHolds(AsRangeCond(s, l, r).value, rho)
  {
    hide ReadHolds, Compares, OpOf, PlainAttr, NumericLiteral, Mirror, FloatOf, LeafAgrees;
    var cs := [AsRangeCond(s, l, r).value];
    assert ReadHolds(cs[0], rho) <==> ReadHolds(AsRangeCond(s, l, r).value, rho);
    if PlainAttr(l).Some? {
      LeafLeft(sem, rho, s, l, r);
    } else {
      LeafRight(sem, rho, s, l, r);
    }
  }

  lemma {:induction false} PlainTimeless(e: Expr)
    requires PlainAttr(e).Some? && Timeless(e)
    ensures PlainAttr(e).value != CURRENT_TIME
    decreases e
  {
    if e.Paren? { PlainTimeless(e.e); }
  }

  // A constraint without the clock has no condition on it.
  lemma {:induction false} ParseTimeless(e: Expr)
    requires Parse(e).Some? && Timeless(e)
    ensures forall i :: 0 <= i < |Parse(e).value| ==> Parse(e).value[i].name != CURRENT_TIME
    decreases e
  {
    match e
    case Paren(x) => ParseTimeless(x);
    case And(l, r) =>
      assert l in Operands(e) && r in Operands(e);
      ParseTimeless(l);
      ParseTimeless(r);
    case Bin(s, l, r) =>
      assert l in Operands(e) && r in Operands(e);
      if PlainAttr(l).Some? { PlainTimeless(l); } else { PlainTimeless(r); }
  }

  // The counts and the evaluator part in exactly two ways. A record is counted that does not match when all its
  // condition attributes are literals and a merged equality lets it in. A record matches uncounted when some
  // condition attribute is an expression and every attribute comes to a value that satisfies its conditions.
  lemma CountedExactly(sem: Sem, rho: Resolver, e: Expr, ad: seq<W.Entry>, idOf: string -> nat)
    requires Compares(sem) && Reads(rho, ad, idOf) && Parse(e).Some? && Timeless(e)
    ensures var cs := Parse(e).value;
      var counted, matches := AllProbesHold(ProbesOf(cs, idOf), ad), F.Eval(sem, rho, e) == Val(B(true));
      && (counted && !matches <==> ReadsHold(cs, rho) && LiteralOnly(cs, ad, idOf) && SomeMerged(sem, rho, e))
      && (matches && !counted <==> ReadsHold(cs, rho) && !LiteralOnly(cs, ad, idOf) && !SomeMerged(sem, rho, e))
  {
    hide F.Eval, SomeMerged, Compares, Reads, Literal, ReadHolds, Parse, CondHolds, Timeless;
    ParsedMeans(sem, rho, e);
    ParseTimeless(e);
    var cs := Parse(e).value;
    var qs := ProbesOf(cs, idOf);
    forall i | 0 <= i < |cs| ensures ProbeHolds(qs[i], ad) <==> Literal(ad, idOf(cs[i].name)) && ReadHolds(cs[i], rho) {
      CondRead(rho, cs[i], ad, idOf);
      CondProbe(cs[i], ad, idOf);
    }
  }

  lemma CondProbe(c: RangeCond, ad: seq<W.Entry>, idOf: string -> nat)
    ensures CondHolds(c, ad, idOf) <==> ProbeHolds(Probe(idOf(c.name), Test(c.op, c.val)), ad)
  {
  }

  // The integers a constraint compares are below 2^53.
  predicate ComparesSmall(sem: Sem, rho: Resolver, e: Expr)
  {
    match e
    case Paren(x) => ComparesSmall(sem, rho, x)
    case And(l, r) => ComparesSmall(sem, rho, l) && ComparesSmall(sem, rho, r)
    case Bin(s, l, r) => SmallOutcome(F.Eval(sem, rho, l)) && SmallOutcome(F.Eval(sem, rho, r))
    case _ => true
  }

  predicate SmallOutcome(o: Outcome)
  {
    o.Val? && IsInt(o.v) ==> -0x20_0000_0000_0000 < IntOf(o.v) < 0x20_0000_0000_0000
  }

  lemma {:induction false} SmallUnmerged(sem: Sem, rho: Resolver, e: Expr)
    requires ComparesSmall(sem, rho, e)
    ensures !SomeMerged(sem, rho, e)
    decreases e
  {
    hide OfInt, F.Eval;
    match e
    case Paren(x) => SmallUnmerged(sem, rho, x);
    case And(l, r) =>
      SmallUnmerged(sem, rho, l);
      SmallUnmerged(sem, rho, r);
    case Bin(s, l, r) =>
      var a, b := F.Eval(sem, rho, l), F.Eval(sem, rho, r);
      if a.Val? && b.Val? && IsInt(a.v) && IsInt(b.v) && IntOf(a.v) != IntOf(b.v) {
        SmallApart(IntOf(a.v), IntOf(b.v));
      }
    case _ =>
  }

  // Comparing integers below 2^53 over literal attributes, exactly the matching records are counted.
  lemma SmallCounted(sem: Sem, rho: Resolver, e: Expr, ad: seq<W.Entry>, idOf: string -> nat)
    requires Compares(sem) && Reads(rho, ad, idOf) && Parse(e).Some? && Timeless(e)
    requires LiteralOnly(Parse(e).value, ad, idOf) && ComparesSmall(sem, rho, e)
    ensures AllProbesHold(ProbesOf(Parse(e).value, idOf), ad) <==> F.Eval(sem, rho, e) == Val(B(true))
  {
    hide F.Eval, SomeMerged, Compares, Reads, LiteralOnly, AllProbesHold, ReadsHold, ComparesSmall, Parse;
    CountedExactly(sem, rho, e, ad, idOf);
    SmallUnmerged(sem, rho, e);
  }

  // Below 2^53 no two integers share a float64.
  lemma SmallApart(i: int, j: int)
    requires -0x20_0000_0000_0000 < i < 0x20_0000_0000_0000 && -0x20_0000_0000_0000 < j < 0x20_0000_0000_0000 && i != j
    ensures OfInt(i) != OfInt(j)
  {
    SmallInt(i);
    SmallInt(j);
  }

  lemma SmallInt(i: int)
    requires -0x20_0000_0000_0000 < i < 0x20_0000_0000_0000
    ensures OfInt(i) == Fin(i as real)
  {
    var m := if i >= 0 then i else -i;
    assert LostBits(m) == 0 && Pow2(0) == 1;
  }

  // Beyond it two can, and the counts take a record the evaluator leaves out.
  lemma MergedEquality(sem: Sem, idOf: string -> nat)
    requires Compares(sem)
    ensures var a, b := 0x20_0000_0000_0001, 0x20_0000_0000_0000; var e := Bin("==", Ref(Unscoped, "x"), Lit(I(b)));
      var rho := (s: Scope, n: string) => Val(I(a)); var ad := [W.Entry(idOf("x"), W.Lit(W.LInt(a)))];
      Parse(e).Some? && CondsHold(Parse(e).value, ad, idOf) && F.Eval(sem, rho, e) == Val(B(false))
  {
    var a, b := 0x20_0000_0000_0001, 0x20_0000_0000_0000;
    assert LostBits(a) == 1 + LostBits(a / 2) && LostBits(a / 2) == 0;
    assert LostBits(b) == 1 + LostBits(b / 2) && LostBits(b / 2) == 0;
    assert Pow2(1) == 2;
    assert OfInt(a) == OfInt(b);
    assert sem.bin("==", I(a), I(b)) == B(false);
  }

  // An attribute held as an expression that comes to 5: the evaluator finds x < 10 true, the counts leave it out.
  lemma ExpressionMissed(sem: Sem, idOf: string -> nat, expr: seq<byte>)
    requires Compares(sem)
    ensures var e := Bin("<", Ref(Unscoped, "x"), Lit(I(10))); var rho := (s: Scope,
      n: string) => Val(I(5)); var ad := [W.Entry(idOf("x"), W.Expr(expr))];
      Parse(e).Some? && F.Eval(sem, rho, e) == Val(B(true)) && !AllProbesHold(ProbesOf(Parse(e).value, idOf), ad)
  {
    SmallInt(5);
    SmallInt(10);
    var e, rho, ad := Bin("<", Ref(Unscoped, "x"), Lit(I(10))), (s: Scope, n: string) => Val(I(5)),
      [W.Entry(idOf("x"), W.Expr(expr))];
    assert sem.bin("<", I(5), I(10)) == B(true);
    var qs := ProbesOf(Parse(e).value, idOf);
    assert !ProbeHolds(qs[0], ad);
  }
}
