/** Expressions on the wire: a tree written in pre-order, tag and payload before its operands, and the skip that finds
    its end without decoding it. */
module Nodes {
  import opened Bytes
  import opened Wire

  // What a node is besides its operands; the inline forms carry a name where the others carry its id.
  datatype Head =
    | HLit(l: Literal)
    | HRef(scope: byte, id: nat)
    | HRefName(scope: byte, name: seq<byte>)
    | HBin(op: byte)
    | HBinName(name: seq<byte>)
    | HUn(op: byte)
    | HUnName(name: seq<byte>)
    | HList
    | HCall(id: nat)
    | HCallName(name: seq<byte>)
    | HCond
    | HElvis
    | HSubscript
    | HParen
    | HSealed(nonce: seq<byte>, ct: seq<byte>)

  datatype Tree = Tree(head: Head, kids: seq<Tree>)

  // How many operands a node has; a list and a call have any number.
  function Arity(h: Head): (n: Option<nat>)
  {
    match h
    case HList => None
    case HCall(_) => None
    case HCallName(_) => None
    case HBin(_) => Some(2)
    case HBinName(_) => Some(2)
    case HElvis => Some(2)
    case HSubscript => Some(2)
    case HCond => Some(3)
    case HUn(_) => Some(1)
    case HUnName(_) => Some(1)
    case HParen => Some(1)
    case _ => Some(0)
  }

  // Names and numbers fit their encodings.
  predicate FitHead(h: Head)
  {
    match h
    case HLit(l) => ValidLiteral(l)
    case HRef(_, id) => id < TWO64
    case HRefName(_, name) => |name| < TWO64
    case HBinName(name) => |name| < TWO64
    case HUnName(name) => |name| < TWO64
    case HCall(id) => id < TWO64
    case HCallName(name) => |name| < TWO64
    case HSealed(nonce, ct) => |nonce| < TWO64 && |ct| < TWO64
    case _ => true
  }

  predicate FitTree(t: Tree)
    decreases t
  {
    && FitHead(t.head) && (if Arity(t.head).Some? then |t.kids| == Arity(t.head).value else |t.kids| < TWO64)
    && forall i :: 0 <= i < |t.kids| ==> FitTree(t.kids[i])
  }

  function Named(name: seq<byte>): (s: seq<byte>) { PutUvarint(|name|) + name }

  // Tag and payload.
  function EncodeHead(h: Head, kids: nat): (s: seq<byte>)
  {
    match h
    case HLit(l) => EncodeNode(Lit(l))
    case HRef(scope, id) => [7, scope] + PutUvarint(id)
    case HBin(op) => [8, op]
    case HUn(op) => [9, op]
    case HList => [10] + PutUvarint(kids)
    case HCall(id) => [12] + PutUvarint(id) + PutUvarint(kids)
    case HCond => [13]
    case HElvis => [14]
    case HSubscript => [16]
    case HParen => [17]
    case HBinName(name) => [18] + Named(name)
    case HUnName(name) => [19] + Named(name)
    case HRefName(scope, name) => [20, scope] + Named(name)
    case HCallName(name) => [21] + Named(name) + PutUvarint(kids)
    case HSealed(nonce, ct) => [23] + Named(nonce) + Named(ct)
  }

  function EncodeTree(t: Tree): (s: seq<byte>)
    decreases t
  {
    EncodeHead(t.head, |t.kids|) + EncodeTrees(t.kids)
  }

  function EncodeTrees(ts: seq<Tree>): (s: seq<byte>)
    decreases ts
  {
    if ts == [] then [] else EncodeTree(ts[0]) + EncodeTrees(ts[1..])
  }

  // Levels below the root.
  function Height(t: Tree): (n: nat)
    decreases t
  {
    if t.kids == [] then 0 else 1 + Tallest(t.kids)
  }

  function Tallest(ts: seq<Tree>): (n: nat)
    decreases ts
  {
    if ts == [] then 0 else
    var a, b := Height(ts[0]), Tallest(ts[1..]);
    if a < b then b else a
  }

  lemma NamedSkips(name: seq<byte>, rest: seq<byte>)
    requires |name| < TWO64
    ensures SkipLenPrefixed(Named(name) + rest) == Some(|Named(name)|)
  {
    hide GetUvarintAt, PutUvarint;
    assert Named(name) + rest == PutUvarint(|name|) + (name + rest);
    UvarintRoundTrip(|name|, name + rest);
  }

  lemma LitHeader(l: Literal, rest: seq<byte>)
    requires ValidLiteral(l)
    ensures NodeHeader(EncodeNode(Lit(l)) + rest) == Some((|EncodeNode(Lit(l))|, 0))
  {
    hide GetUvarintAt, PutUvarint, SkipLenPrefixed;
    var s := EncodeNode(Lit(l));
    match l
    case LInt(i) =>
      assert (s + rest)[1..] == PutUvarint(ZigZag(i)) + rest;
      UvarintRoundTrip(ZigZag(i), rest);
    case LStr(str) =>
      assert (s + rest)[1..] == Named(str) + rest;
      NamedSkips(str, rest);
    case _ =>
  }

  ghost predicate Reads(h: Head, kids: nat, rest: seq<byte>)
  {
    NodeHeader(EncodeHead(h, kids) + rest) == Some((|EncodeHead(h, kids)|, kids))
  }

  lemma ListHeader(kids: nat, rest: seq<byte>)
    requires kids < TWO64
    ensures NodeHeader([10] + (PutUvarint(kids) + rest)) == Some((1 + |PutUvarint(kids)|, kids))
  {
    hide GetUvarintAt, PutUvarint, SkipLenPrefixed;
    var p := PutUvarint(kids) + rest;
    assert ([10] + p)[1..] == p;
    UvarintRoundTrip(kids, rest);
  }

  lemma CallHeader(id: nat, kids: nat, rest: seq<byte>)
    requires id < TWO64 && kids < TWO64
    ensures NodeHeader([12] + (PutUvarint(id) + (PutUvarint(kids) + rest))) ==
      Some((1 + |PutUvarint(id)| + |PutUvarint(kids)|, kids))
  {
    hide GetUvarintAt, PutUvarint, SkipLenPrefixed;
    var n := PutUvarint(kids) + rest;
    var p := PutUvarint(id) + n;
    assert ([12] + p)[1..] == p && p[|PutUvarint(id)|..] == n;
    UvarintRoundTrip(id, n);
    UvarintRoundTrip(kids, rest);
  }

  lemma CallNameHeader(name: seq<byte>, kids: nat, rest: seq<byte>)
    requires |name| < TWO64 && kids < TWO64
    ensures NodeHeader([21] + (Named(name) + (PutUvarint(kids) + rest))) ==
      Some((1 + |Named(name)| + |PutUvarint(kids)|, kids))
  {
    hide GetUvarintAt, PutUvarint, SkipLenPrefixed, Named;
    var n := PutUvarint(kids) + rest;
    var p := Named(name) + n;
    assert ([21] + p)[1..] == p && p[|Named(name)|..] == n;
    NamedSkips(name, n);
    UvarintRoundTrip(kids, rest);
  }

  lemma OpNameHeader(tag: byte, name: seq<byte>, rest: seq<byte>)
    requires |name| < TWO64 && (tag == 18 || tag == 19)
    ensures NodeHeader([tag] + (Named(name) + rest)) == Some((1 + |Named(name)|, if tag == 18 then 2 else 1))
  {
    hide GetUvarintAt, SkipLenPrefixed, Named;
    var p := Named(name) + rest;
    assert ([tag] + p)[1..] == p;
    NamedSkips(name, rest);
  }

  lemma RefNameHeader(scope: byte, name: seq<byte>, rest: seq<byte>)
    requires |name| < TWO64
    ensures NodeHeader([20] + ([scope] + (Named(name) + rest))) == Some((2 + |Named(name)|, 0))
  {
    hide GetUvarintAt, SkipLenPrefixed, Named;
    var p := [scope] + (Named(name) + rest);
    assert ([20] + p)[1..] == p && p[1..] == Named(name) + rest;
    NamedSkips(name, rest);
  }

  lemma SealedHeader(nonce: seq<byte>, ct: seq<byte>, rest: seq<byte>)
    requires |nonce| < TWO64 && |ct| < TWO64
    ensures NodeHeader([23] + (Named(nonce) + (Named(ct) + rest))) == Some((1 + |Named(nonce)| + |Named(ct)|, 0))
  {
    hide GetUvarintAt, SkipLenPrefixed, Named;
    var c := Named(ct) + rest;
    var p := Named(nonce) + c;
    assert ([23] + p)[1..] == p && p[|Named(nonce)|..] == c;
    NamedSkips(nonce, c);
    NamedSkips(ct, rest);
  }

  lemma Regroup(a: seq<byte>, b: seq<byte>, c: seq<byte>, d: seq<byte>)
    ensures a + b + c + d == a + (b + (c + d)) && a + b + d == a + (b + d) && |a + b + c| == |a| + |b| + |c|
  {
  }

  lemma CountedRead(h: Head, kids: nat, rest: seq<byte>)
    requires FitHead(h) && kids < TWO64 && (h.HList? || h.HCall? || h.HCallName?)
    ensures Reads(h, kids, rest)
  {
    hide NodeHeader, PutUvarint, Named;
    match h
    case HList =>
      Regroup([10], PutUvarint(kids), [], rest);
      ListHeader(kids, rest);
    case HCall(id) =>
      Regroup([12], PutUvarint(id), PutUvarint(kids), rest);
      CallHeader(id, kids, rest);
    case HCallName(name) =>
      Regroup([21], Named(name), PutUvarint(kids), rest);
      CallNameHeader(name, kids, rest);
  }

  lemma NamedRead(h: Head, kids: nat, rest: seq<byte>)
    requires FitHead(h) && Arity(h) == Some(kids) && (h.HBinName? || h.HUnName? || h.HRefName? || h.HSealed?)
    ensures Reads(h, kids, rest)
  {
    hide NodeHeader, PutUvarint, Named;
    match h
    case HBinName(name) =>
      Regroup([18], Named(name), [], rest);
      OpNameHeader(18, name, rest);
    case HUnName(name) =>
      Regroup([19], Named(name), [], rest);
      OpNameHeader(19, name, rest);
    case HRefName(scope, name) =>
      assert [20, scope] == [20] + [scope];
      Regroup([20], [scope], Named(name), rest);
      RefNameHeader(scope, name, rest);
    case HSealed(nonce, ct) =>
      Regroup([23], Named(nonce), Named(ct), rest);
      SealedHeader(nonce, ct, rest);
  }

  lemma PlainRead(h: Head, kids: nat, rest: seq<byte>)
    requires FitHead(h) && Arity(h) == Some(kids) && !(h.HBinName? || h.HUnName? || h.HRefName? || h.HSealed?)
    ensures Reads(h, kids, rest)
  {
    hide GetUvarintAt, PutUvarint, SkipLenPrefixed, Named, EncodeNode;
    match h
    case HLit(l) => LitHeader(l, rest);
    case HRef(scope, id) =>
      assert (EncodeHead(h, kids) + rest)[1..][1..] == PutUvarint(id) + rest;
      UvarintRoundTrip(id, rest);
    case _ =>
  }

  // The header is read as written, whatever follows it.
  lemma HeaderRead(h: Head, kids: nat, rest: seq<byte>)
    requires FitHead(h) && (if Arity(h).Some? then kids == Arity(h).value else kids < TWO64)
    ensures Reads(h, kids, rest)
  {
    hide Reads, FitHead;
    if Arity(h).None? { CountedRead(h, kids, rest); }
    else if h.HBinName? || h.HUnName? || h.HRefName? || h.HSealed? { NamedRead(h, kids, rest); }
    else { PlainRead(h, kids, rest); }
  }

  // A tree is skipped whole, whatever follows it, if and only if it does not nest past the bound.
  lemma {:induction false} TreeSkipped(t: Tree, depth: nat, rest: seq<byte>)
    requires FitTree(t)
    ensures SkipNode(EncodeTree(t) + rest, depth) ==
      if depth + Height(t) <= MAX_DEPTH then Some(|EncodeTree(t)|) else None
    decreases t
  {
    hide NodeHeader, EncodeHead;
    var h, k := EncodeHead(t.head, |t.kids|), EncodeTrees(t.kids);
    var s := EncodeTree(t) + rest;
    assert s == h + (k + rest);
    HeaderRead(t.head, |t.kids|, k + rest);
    assert s[|h|..] == k + rest;
    if depth <= MAX_DEPTH { TreesSkipped(t.kids, depth + 1, rest); }
  }

  lemma {:induction false} TreesSkipped(ts: seq<Tree>, depth: nat, rest: seq<byte>)
    requires forall i :: 0 <= i < |ts| ==> FitTree(ts[i])
    ensures SkipNodes(EncodeTrees(ts) + rest, |ts|, depth) ==
      if ts == [] || depth + Tallest(ts) <= MAX_DEPTH then Some(|EncodeTrees(ts)|) else None
    decreases ts
  {
    hide SkipNode, EncodeTree, Height, FitTree;
    if ts != [] {
      var a, b := EncodeTree(ts[0]), EncodeTrees(ts[1..]);
      var s := EncodeTrees(ts) + rest;
      assert s == a + (b + rest);
      TreeSkipped(ts[0], depth, b + rest);
      if depth + Height(ts[0]) <= MAX_DEPTH {
        assert s[|a|..] == b + rest;
        TreesSkipped(ts[1..], depth, rest);
      }
    }
  }

  // So an expression is an attribute value a tail can hold exactly where it is no literal and nests within the bound.
  lemma TreeIsNode(t: Tree)
    requires FitTree(t)
    ensures ValidNode(Expr(EncodeTree(t))) <==> !t.head.HLit? && Height(t) <= MAX_DEPTH
  {
    hide SkipNode;
    TreeSkipped(t, 0, []);
    assert EncodeTree(t) + [] == EncodeTree(t);
    HeadTag(t.head, |t.kids|);
  }

  lemma HeadTag(h: Head, kids: nat)
    ensures EncodeHead(h, kids) != [] && (EncodeHead(h, kids)[0] >= 7 <==> !h.HLit?)
  {
    hide PutUvarint, PutLE;
  }
}
