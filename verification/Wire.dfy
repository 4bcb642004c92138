/** The wire form of attribute values: literals in their tagged encoding, every other expression as
    the bytes of a self-delimiting node tree, and the (id, node) entries a cold tail is made of. */
module Wire {
  import opened Bytes

  // ---------------------------------------------------------------- values

  // A real keeps its IEEE 754 bit pattern, so equality of literals is equality of bits.
  datatype Literal =
    | LUndef
    | LError
    | LBool(b: bool)
    | LInt(i: int)
    | LReal(bits: nat)
    | LStr(s: seq<byte>)

  // What an attribute may hold: a literal, or an expression carried as its encoded bytes.
  datatype Node = Lit(lit: Literal) | Expr(code: seq<byte>)

  predicate ValidLiteral(l: Literal)
  {
    match l
    case LInt(i) => IsInt64(i)
    case LReal(bits) => bits < TWO64
    case LStr(s) => |s| < TWO64
    case _ => true
  }

  predicate ValidNode(n: Node)
  {
    match n
    case Lit(l) => ValidLiteral(l)
    case Expr(code) => code != [] && code[0] >= 7 && SkipNode(code, 0) == Some(|code|)
  }

  // ---------------------------------------------------------------- encoding

  function ZigZag(v: int): (u: nat) { if v >= 0 then 2 * v else -2 * v - 1 }

  function UnZigZag(u: nat): (v: int) { if u % 2 == 0 then u / 2 else -((u + 1) / 2) }

  function EncodeNode(n: Node): (s: seq<byte>)
    ensures ValidNode(n) ==> |s| > 0
  {
    match n
    case Lit(LUndef) => [0]
    case Lit(LError) => [1]
    case Lit(LBool(b)) => [if b then 3 else 2]
    case Lit(LInt(i)) => [4] + PutUvarint(ZigZag(i))
    case Lit(LReal(bits)) => [5] + PutLE(bits, 8)
    case Lit(LStr(s)) => [6] + PutUvarint(|s|) + s
    case Expr(code) => code
  }

  // Reading a node: its literal value when its tag says so.
  function DecodeLiteral(s: seq<byte>): (r: Option<Literal>)
  {
    if s == [] then None
    else if s[0] == 0 then Some(LUndef)
    else if s[0] == 1 then Some(LError)
    else if s[0] == 2 then Some(LBool(false))
    else if s[0] == 3 then Some(LBool(true))
    else if s[0] == 4 then
      match GetUvarint(s[1..]) { case None => None case Some((u, _)) => Some(LInt(UnZigZag(u))) }
    else if s[0] == 5 then
      if |s| < 9 then None else Some(LReal(GetLE(s[1..9])))
    else if s[0] == 6 then
      match GetUvarint(s[1..]) {
        case None => None
        case Some((l, n)) => if |s| - 1 - n < l then None else Some(LStr(s[1 + n..1 + n + l]))
      }
    else None
  }

  function DecodeNode(s: seq<byte>): (n: Node)
  {
    match DecodeLiteral(s) { case Some(l) => Lit(l) case None => Expr(s) }
  }

  // ---------------------------------------------------------------- self-delimiting skip

  const MAX_DEPTH: nat := 1000

  function SkipLenPrefixed(s: seq<byte>): (r: Option<nat>)
    ensures r.Some? ==> r.value <= |s|
  {
    match GetUvarint(s)
    case None => None
    case Some((l, n)) => if n + l <= |s| then Some(n + l) else None
  }

  // The tag and payload before a node's children, and how many children follow.
  function NodeHeader(s: seq<byte>): (r: Option<(nat, nat)>)
    ensures r.Some? ==> 0 < r.value.0 <= |s|
  {
    if s == [] then None
    else
      var t, p := s[0], s[1..];
      if t <= 3 then Some((1, 0))
      else if t == 4 then
        match GetUvarint(p) { case None => None case Some((_, n)) => Some((1 + n, 0)) }
      else if t == 5 then if |p| < 8 then None else Some((9, 0))
      else if t == 6 then
        match SkipLenPrefixed(p) { case None => None case Some(n) => Some((1 + n, 0)) }
      else if t == 7 then
        if p == [] then None else
        match GetUvarint(p[1..]) { case None => None case Some((_, n)) => Some((2 + n, 0)) }
      else if t == 8 then if p == [] then None else Some((2, 2))
      else if t == 9 then if p == [] then None else Some((2, 1))
      else if t == 10 then
        match GetUvarint(p) { case None => None case Some((k, n)) => Some((1 + n, k)) }
      else if t == 12 then
        match GetUvarint(p) {
          case None => None
          case Some((_, n)) =>
            match GetUvarint(p[n..]) { case None => None case Some((k, m)) => Some((1 + n + m, k)) }
        }
      else if t == 13 then Some((1, 3))
      else if t == 14 || t == 16 then Some((1, 2))
      else if t == 17 then Some((1, 1))
      else if t == 18 || t == 19 then
        match SkipLenPrefixed(p) { case None => None case Some(n) => Some((1 + n, if t == 18 then 2 else 1)) }
      else if t == 20 then
        if p == [] then None else
        match SkipLenPrefixed(p[1..]) { case None => None case Some(n) => Some((2 + n, 0)) }
      else if t == 21 then
        match SkipLenPrefixed(p) {
          case None => None
          case Some(n) =>
            match GetUvarint(p[n..]) { case None => None case Some((k, m)) => Some((1 + n + m, k)) }
        }
      else if t == 23 then
        match SkipLenPrefixed(p) {
          case None => None
          case Some(n) =>
            match SkipLenPrefixed(p[n..]) { case None => None case Some(m) => Some((1 + n + m, 0)) }
        }
      else None
  }

  // The length of the node at the front of s.
  function SkipNode(s: seq<byte>, depth: nat): (r: Option<nat>)
    ensures r.Some? ==> 0 < r.value <= |s|
    decreases |s|, 1
  {
    if depth > MAX_DEPTH then None else
    match NodeHeader(s)
    case None => None
    case Some((h, kids)) =>
      match SkipNodes(s[h..], kids, depth + 1) { case None => None case Some(n) => Some(h + n) }
  }

  function SkipNodes(s: seq<byte>, count: nat, depth: nat): (r: Option<nat>)
    ensures r.Some? ==> r.value <= |s|
    decreases |s|, 2, count
  {
    if count == 0 then Some(0) else
    match SkipNode(s, depth)
    case None => None
    case Some(n) =>
      match SkipNodes(s[n..], count - 1, depth) { case None => None case Some(m) => Some(n + m) }
  }

  lemma SkipLenPrefixedLocal(s: seq<byte>, rest: seq<byte>)
    requires SkipLenPrefixed(s).Some?
    ensures SkipLenPrefixed(s + rest) == SkipLenPrefixed(s)
  {
    hide GetUvarintAt;
    UvarintLocal(s, rest, 0);
  }

  lemma NodeHeaderLocal(s: seq<byte>, rest: seq<byte>)
    requires NodeHeader(s).Some?
    ensures NodeHeader(s + rest) == NodeHeader(s)
  {
    hide GetUvarintAt, SkipLenPrefixed;
    var t, p := s[0], s[1..];
    assert (s + rest)[1..] == p + rest;
    if t == 4 || t == 10 {
      UvarintLocal(p, rest, 0);
    } else if t == 6 || t == 18 || t == 19 {
      SkipLenPrefixedLocal(p, rest);
    } else if t == 20 {
      SkipLenPrefixedLocal(p[1..], rest);
      assert (p + rest)[1..] == p[1..] + rest;
    } else if t == 21 {
      SkipLenPrefixedLocal(p, rest);
      var n := SkipLenPrefixed(p).value;
      UvarintLocal(p[n..], rest, 0);
      assert (p + rest)[n..] == p[n..] + rest;
    } else if t == 7 {
      UvarintLocal(p[1..], rest, 0);
      assert (p + rest)[1..] == p[1..] + rest;
    } else if t == 12 {
      UvarintLocal(p, rest, 0);
      var n := GetUvarint(p).value.1;
      UvarintLocal(p[n..], rest, 0);
      assert (p + rest)[n..] == p[n..] + rest;
    } else if t == 23 {
      SkipLenPrefixedLocal(p, rest);
      var n := SkipLenPrefixed(p).value;
      SkipLenPrefixedLocal(p[n..], rest);
      assert (p + rest)[n..] == p[n..] + rest;
    }
  }

  // A node's length is decided by its own bytes alone, whatever follows it.
  lemma {:induction false} SkipNodeLocal(s: seq<byte>, depth: nat, rest: seq<byte>)
    requires SkipNode(s, depth).Some?
    ensures SkipNode(s + rest, depth) == SkipNode(s, depth)
    decreases |s|, 1
  {
    hide NodeHeader;
    NodeHeaderLocal(s, rest);
    var h, kids := NodeHeader(s).value.0, NodeHeader(s).value.1;
    SkipNodesLocal(s[h..], kids, depth + 1, rest);
    assert (s + rest)[h..] == s[h..] + rest;
  }

  lemma {:induction false} SkipNodesLocal(s: seq<byte>, count: nat, depth: nat, rest: seq<byte>)
    requires SkipNodes(s, count, depth).Some?
    ensures SkipNodes(s + rest, count, depth) == SkipNodes(s, count, depth)
    decreases |s|, 2, count
  {
    hide NodeHeader;
    if count > 0 {
      var t := s + rest;
      var n := SkipNode(s, depth).value;
      assert SkipNode(t, depth) == Some(n) by { SkipNodeLocal(s, depth, rest); }
      var u := s[n..];
      assert t[n..] == u + rest;
      assert SkipNodes(u, count - 1, depth).Some?;
      assert SkipNodes(t[n..], count - 1, depth) == SkipNodes(u, count - 1, depth) by {
        SkipNodesLocal(u, count - 1, depth, rest);
      }
    }
  }

  // ---------------------------------------------------------------- node round trip

  lemma IntNode(i: int)
    requires IsInt64(i)
    ensures SkipNode(EncodeNode(Lit(LInt(i))), 0) == Some(|EncodeNode(Lit(LInt(i)))|)
    ensures DecodeLiteral(EncodeNode(Lit(LInt(i)))) == Some(LInt(i))
  {
    var s, p := EncodeNode(Lit(LInt(i))), PutUvarint(ZigZag(i));
    assert p + [] == p && s[1..] == p;
    UvarintRoundTrip(ZigZag(i), []);
    assert NodeHeader(s) == Some((1 + |p|, 0));
  }

  lemma RealNode(bits: nat)
    requires bits < TWO64
    ensures SkipNode(EncodeNode(Lit(LReal(bits))), 0) == Some(|EncodeNode(Lit(LReal(bits)))|)
    ensures DecodeLiteral(EncodeNode(Lit(LReal(bits)))) == Some(LReal(bits))
  {
    var s := EncodeNode(Lit(LReal(bits)));
    assert s[1..9] == PutLE(bits, 8);
    GetPutLE(bits, 8);
    Pow256Widths();
    assert NodeHeader(s) == Some((9, 0));
  }

  lemma StringNode(str: seq<byte>)
    requires |str| < TWO64
    ensures SkipNode(EncodeNode(Lit(LStr(str))), 0) == Some(|EncodeNode(Lit(LStr(str)))|)
    ensures DecodeLiteral(EncodeNode(Lit(LStr(str)))) == Some(LStr(str))
  {
    var s, p := EncodeNode(Lit(LStr(str))), PutUvarint(|str|);
    assert s[1..] == p + str;
    UvarintRoundTrip(|str|, str);
    assert s[1 + |p|..1 + |p| + |str|] == str;
    assert NodeHeader(s) == Some((1 + |p| + |str|, 0));
  }

  lemma LiteralLength(l: Literal)
    requires ValidLiteral(l)
    ensures SkipNode(EncodeNode(Lit(l)), 0) == Some(|EncodeNode(Lit(l))|)
    ensures DecodeLiteral(EncodeNode(Lit(l))) == Some(l)
  {
    match l
    case LInt(i) => IntNode(i);
    case LReal(bits) => RealNode(bits);
    case LStr(str) => StringNode(str);
    case _ =>
  }

  lemma NodeRoundTrip(n: Node)
    requires ValidNode(n)
    ensures SkipNode(EncodeNode(n), 0) == Some(|EncodeNode(n)|)
    ensures DecodeNode(EncodeNode(n)) == n
  {
    if n.Lit? { LiteralLength(n.lit); }
  }

  // ---------------------------------------------------------------- cold-tail entries

  datatype Entry = Entry(id: nat, node: Node)

  predicate ValidEntry(e: Entry) { e.id < 0x1_0000_0000 && ValidNode(e.node) }

  ghost predicate ValidEntries(es: seq<Entry>) { forall i :: 0 <= i < |es| ==> ValidEntry(es[i]) }

  function EncodeEntry(e: Entry): (s: seq<byte>) { PutUvarint(e.id) + EncodeNode(e.node) }

  function EncodeEntries(es: seq<Entry>): (s: seq<byte>)
  {
    if es == [] then [] else EncodeEntry(es[0]) + EncodeEntries(es[1..])
  }

  // One step of the tail walk: the entry at the front and its length; None when malformed.
  function ReadEntry(s: seq<byte>): (r: Option<(Entry, nat)>)
    ensures r.Some? ==> 0 < r.value.1 <= |s|
  {
    match GetUvarint(s)
    case None => None
    case Some((id, m)) =>
      match SkipNode(s[m..], 0)
      case None => None
      case Some(n) => Some((Entry(id % 0x1_0000_0000, DecodeNode(s[m..][..n])), m + n))
  }

  // The entries a tail walk visits; it stops at the first malformed one.
  function ReadEntries(s: seq<byte>): (es: seq<Entry>)
    decreases |s|
  {
    if s == [] then [] else
    match ReadEntry(s)
    case None => []
    case Some((e, n)) => [e] + ReadEntries(s[n..])
  }

  lemma ReadEntryEncoded(e: Entry, rest: seq<byte>)
    requires ValidEntry(e)
    ensures ReadEntry(EncodeEntry(e) + rest) == Some((e, |EncodeEntry(e)|))
  {
    hide GetUvarintAt, GetUvarint, SkipNode, SkipNodes, NodeHeader, DecodeNode, EncodeNode, PutUvarint;
    var node, key := EncodeNode(e.node), PutUvarint(e.id);
    var s, t := EncodeEntry(e) + rest, node + rest;
    assert s == key + t;
    assert GetUvarint(s) == Some((e.id, |key|)) by { UvarintRoundTrip(e.id, t); }
    assert s[|key|..] == t;
    assert SkipNode(t, 0) == Some(|node|) && DecodeNode(node) == e.node by {
      NodeRoundTrip(e.node);
      SkipNodeLocal(node, 0, rest);
    }
    assert t[..|node|] == node;
  }

  // A tail is read back entry for entry.
  lemma {:induction false} EntriesRoundTrip(es: seq<Entry>)
    requires ValidEntries(es)
    ensures ReadEntries(EncodeEntries(es)) == es
  {
    hide ReadEntry, EncodeEntry, ValidEntry;
    if es != [] {
      assert ValidEntry(es[0]);
      ReadEntryEncoded(es[0], EncodeEntries(es[1..]));
      EntriesRoundTrip(es[1..]);
      var n := |EncodeEntry(es[0])|;
      assert EncodeEntries(es)[n..] == EncodeEntries(es[1..]);
    }
  }

  // ---------------------------------------------------------------- ads

  // An ad is its attributes in wire order, ids distinct; its meaning is the map it denotes.
  ghost predicate DistinctIds(es: seq<Entry>)
  {
    forall i, j :: 0 <= i < j < |es| ==> es[i].id != es[j].id
  }

  ghost predicate ValidAd(es: seq<Entry>) { ValidEntries(es) && DistinctIds(es) }

  // First entry carrying the id, as the wire lookup and every tail walk return it.
  function Lookup(es: seq<Entry>, id: nat): (r: Option<Node>)
    ensures r.Some? ==> exists i :: 0 <= i < |es| && es[i] == Entry(id, r.value)
    ensures r.None? <==> forall i :: 0 <= i < |es| ==> es[i].id != id
  {
    if es == [] then None
    else if es[0].id == id then assert es[0] == Entry(id, es[0].node); Some(es[0].node)
    else
      var r := Lookup(es[1..], id);
      assert r.Some? ==> exists i :: 0 <= i < |es| && es[i] == Entry(id, r.value) by {
        if r.Some? {
          var j :| 0 <= j < |es[1..]| && es[1..][j] == Entry(id, r.value);
          assert es[j + 1] == Entry(id, r.value);
        }
      }
      r
  }

  lemma LookupAt(es: seq<Entry>, i: nat)
    requires DistinctIds(es) && i < |es|
    ensures Lookup(es, es[i].id) == Some(es[i].node)
  {
  }

  lemma LookupFound(es: seq<Entry>, id: nat)
    requires Lookup(es, id).Some?
    ensures exists j :: 0 <= j < |es| && es[j] == Entry(id, Lookup(es, id).value)
  {
  }
}
