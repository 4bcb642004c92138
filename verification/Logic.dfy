/** What the operators and scopes of an expression mean to its author: && and || as the minimum and the maximum of
    three truth values, and which ad each kind of reference reads. */
module Logic {
  import opened Bytes
  import opened Folding
  import opened Evaluator

  // ---------------------------------------------------------------- truth values

  // How true a value is: false, undefined, true, or nothing that has a truth. Numbers count by whether they are zero.
  function Truth(sem: Sem, v: Value): (t: Option<nat>)
  {
    if v == Undef then Some(1)
    else if v == B(true) || (v.I? && v.i != 0) || (v.R? && !sem.zero(v.bits)) then Some(2)
    else if v.B? || v.I? || v.R? then Some(0)
    else None
  }

  // The value that is that true.
  function OfTruth(t: nat): (v: Value) { if t == 0 then B(false) else if t == 1 then Undef else B(true) }

  function Lesser(a: nat, b: nat): (r: nat) { if a < b then a else b }

  function Greater(a: nat, b: nat): (r: nat) { if a < b then b else a }

  // Operands that have a truth: && is the lesser and || the greater, whichever comes first, and an operand with itself
  // is its own truth.
  lemma TruthLaws(sem: Sem, a: Value, b: Value)
    requires Truth(sem, a).Some? && Truth(sem, b).Some?
    ensures AndV(sem, a, b) == OfTruth(Lesser(Truth(sem, a).value, Truth(sem, b).value)) == AndV(sem, b, a)
    ensures OrV(sem, a, b) == OfTruth(Greater(Truth(sem, a).value, Truth(sem, b).value)) == OrV(sem, b, a)
    ensures AndV(sem, a, a) == OrV(sem, a, a) == OfTruth(Truth(sem, a).value)
  {
  }

  // An operand without a truth is an error, unless the left has decided.
  lemma ErrorLaws(sem: Sem, a: Value, b: Value)
    requires Truth(sem, a).None? || Truth(sem, b).None?
    ensures AndV(sem, a, b) == if Truth(sem, a) == Some(0) then B(false) else Err
    ensures OrV(sem, a, b) == if Truth(sem, a) == Some(2) then B(true) else Err
  {
  }

  // What the evaluator gives for operands that come to values.
  lemma ShortLaws(ads: seq<Ad>, sem: Sem, cur: Option<nat>, l: Expr, r: Expr, d: nat, marks: set<Mark>)
    requires WorldOK(ads) && (cur.Some? ==> cur.value < |ads|) && d < MAX_EVAL_DEPTH
    requires EvalIn(ads, sem, cur, l, d + 1, marks).Val? && EvalIn(ads, sem, cur, r, d + 1, marks).Val?
    ensures var a, b := EvalIn(ads, sem, cur, l, d + 1, marks).v, EvalIn(ads, sem, cur, r, d + 1, marks).v;
      var t, u := Truth(sem, a), Truth(sem, b);
      && EvalIn(ads, sem, cur, And(l, r), d, marks) ==
           Val(if t == Some(0) then B(false) else if t.None? || u.None? then Err else OfTruth(Lesser(t.value, u.value)))
      && EvalIn(ads, sem, cur, Or(l, r), d, marks) ==
           Val(if t == Some(2) then B(true) else if t.None? || u.None? then Err else OfTruth(Greater(t.value, u.value)))
  {
    hide EvalIn, Resolve, Truth, AndV, OrV;
    var a, b := EvalIn(ads, sem, cur, l, d + 1, marks).v, EvalIn(ads, sem, cur, r, d + 1, marks).v;
    ShortStep(ads, sem, cur, true, l, r, d, marks);
    ShortStep(ads, sem, cur, false, l, r, d, marks);
    LeftDecides(sem, a);
    if Truth(sem, a).Some? && Truth(sem, b).Some? { TruthLaws(sem, a, b); } else { ErrorLaws(sem, a, b); }
  }

  lemma LeftDecides(sem: Sem, a: Value)
    ensures AfterLeft(sem, true, a) == if Truth(sem, a).None? then Some(Err) else if Truth(sem, a) == Some(0) then
      Some(B(false)) else None
    ensures AfterLeft(sem, false, a) == if Truth(sem, a).None? then Some(Err) else if Truth(sem, a) == Some(2) then
      Some(B(true)) else None
  {
  }

  // ---------------------------------------------------------------- scopes

  // The ad and the ads that enclose it, from the inside out.
  function Outward(ads: seq<Ad>, i: Option<nat>): (chain: seq<nat>)
    requires WorldOK(ads) && (i.Some? ==> i.value < |ads|)
    ensures forall k :: 0 <= k < |chain| ==> chain[k] < |ads|
    decreases if i.Some? then i.value + 1 else 0
  {
    if i.None? then [] else [i.value] + Outward(ads, ads[i.value].parent)
  }

  // The ads a reference made in ad i looks through, in order.
  function Sought(ads: seq<Ad>, i: nat, scope: Scope): (chain: seq<nat>)
    requires WorldOK(ads) && i < |ads|
    ensures forall k :: 0 <= k < |chain| ==> chain[k] < |ads|
  {
    match scope
    case My => [i]
    case Target => if ads[i].target.Some? then [ads[i].target.value] else []
    case Parent => if ads[i].parent.Some? then [ads[i].parent.value] else []
    case Unscoped => Outward(ads, Some(i)) + Outward(ads, ads[i].target)
  }

  // Place k of the chain is the first that defines the name.
  ghost predicate FirstAt(ads: seq<Ad>, chain: seq<nat>, name: Name, k: nat)
    requires forall k :: 0 <= k < |chain| ==> chain[k] < |ads|
  {
    k < |chain| && name in ads[chain[k]].attrs && forall j :: 0 <= j < k ==> name !in ads[chain[j]].attrs
  }

  ghost predicate Undefined(ads: seq<Ad>, chain: seq<nat>, name: Name)
    requires forall k :: 0 <= k < |chain| ==> chain[k] < |ads|
  {
    forall k :: 0 <= k < |chain| ==> name !in ads[chain[k]].attrs
  }

  lemma {:induction false} FoundOutward(ads: seq<Ad>, i: Option<nat>, name: Name) returns (k: nat)
    requires WorldOK(ads) && (i.Some? ==> i.value < |ads|)
    ensures FindUp(ads, i, name).Some? ==>
      FirstAt(ads, Outward(ads, i), name, k) && FindUp(ads, i, name) == Some(Outward(ads, i)[k])
    ensures FindUp(ads, i, name).None? ==> Undefined(ads, Outward(ads, i), name)
    decreases if i.Some? then i.value + 1 else 0
  {
    k := 0;
    if i.Some? && name !in ads[i.value].attrs {
      var j := FoundOutward(ads, ads[i.value].parent, name);
      k := j + 1;
    }
  }

  lemma FoundSought(ads: seq<Ad>, i: nat, scope: Scope, name: Name) returns (k: nat)
    requires WorldOK(ads) && i < |ads|
    ensures var chain, at := Sought(ads, i, scope), Resolve(ads, Some(i), scope, name);
      && (at.Some? ==> FirstAt(ads, chain, name, k) && at == Some(chain[k]))
      && (at.None? ==> Undefined(ads, chain, name))
  {
    k := 0;
    if scope == Unscoped {
      var own, other := Outward(ads, Some(i)), Outward(ads, ads[i].target);
      k := FoundOutward(ads, Some(i), name);
      if FindUp(ads, Some(i), name).None? {
        var j := FoundOutward(ads, ads[i].target, name);
        k := |own| + j;
      }
    }
  }

  // MY reads the ad, TARGET the ad it is matched with, PARENT the ad enclosing it, and a bare name the first of the ad,
  // its enclosing ads outward, the matched ad and that one's enclosing ads: the definition there, evaluated there, or
  // undefined.
  lemma ScopeReads(ads: seq<Ad>, sem: Sem, i: nat, scope: Scope, name: Name, d: nat, marks: set<Mark>) returns (k: nat)
    requires WorldOK(ads) && i < |ads| && d < MAX_EVAL_DEPTH
    requires name != CURRENT_TIME || scope == Target || scope == Parent
    ensures var chain, o := Sought(ads, i, scope), EvalIn(ads, sem, Some(i), Ref(scope, name), d, marks);
      if Undefined(ads, chain, name) then o == Val(Undef)
      else
        && FirstAt(ads, chain, name, k)
        && var a := chain[k]; var x := ads[a].attrs[name];
           if x.Lit? then o == if d + 1 < MAX_EVAL_DEPTH then Val(x.v) else TooDeep
           else if (a, name) in marks then o == Cyclic
           else o == EvalIn(ads, sem, Some(a), x, d + 1, marks + {(a, name)})
  {
    hide Sought, Resolve;
    k := FoundSought(ads, i, scope, name);
  }

  // CurrentTime, bare or of MY, is read where an ad defines it and is the time elsewhere.
  lemma ClockReads(ads: seq<Ad>, sem: Sem, i: nat, scope: Scope, d: nat, marks: set<Mark>)
    requires WorldOK(ads) && i < |ads| && d + 1 < MAX_EVAL_DEPTH && (scope == Unscoped || scope == My)
    ensures Undefined(ads, Sought(ads, i, scope), CURRENT_TIME) ==>
      EvalIn(ads, sem, Some(i), Ref(scope, CURRENT_TIME), d, marks) == Val(I(sem.now))
    ensures CURRENT_TIME in ads[i].attrs && ads[i].attrs[CURRENT_TIME].Lit? ==>
      var v := ads[i].attrs[CURRENT_TIME].v;
      v != Undef ==> EvalIn(ads, sem, Some(i), Ref(scope, CURRENT_TIME), d, marks) == Val(v)
  {
    hide Sought, Resolve;
    var k := FoundSought(ads, i, scope, CURRENT_TIME);
    if CURRENT_TIME in ads[i].attrs { OwnFirst(ads, i, scope, CURRENT_TIME); }
  }

  lemma OwnFirst(ads: seq<Ad>, i: nat, scope: Scope, name: Name)
    requires WorldOK(ads) && i < |ads| && name in ads[i].attrs && (scope == Unscoped || scope == My)
    ensures Resolve(ads, Some(i), scope, name) == Some(i)
  {
  }
}
