/** The frame around a sidecar's columns: magic, format version, segment length and checksum; and the schema alone,
    recovered from a frame whose blocks this version cannot read. */
module Section {
  import opened Bytes
  import opened Persist

  const SECTION_MAGIC: nat := 0x434F_4C58
  const SECTION_VERSION: nat := 7
  const SECTION_HDR: nat := 14

  // ---------------------------------------------------------------- the frame

  function Header(version: nat, upto: nat, sum: nat): (h: seq<byte>)
    ensures |h| == SECTION_HDR
  {
    U32(SECTION_MAGIC) + U16(version) + U32(upto % TWO32) + U32(sum)
  }

  function WrapColSection(body: seq<byte>, version: nat, upto: nat, crc: seq<byte> -> nat): (s: seq<byte>)
  {
    Header(version, upto, crc(body)) + body
  }

  // The framed body, or nothing for a section that is short, foreign, of another version, stale or corrupt. A caller
  // after the schema alone takes any version.
  function ReadColSection(data: seq<byte>, upto: nat, crc: seq<byte> -> nat, anyVersion: bool)
    : (body: Option<seq<byte>>)
  {
    if |data| < SECTION_HDR || GetLE(data[0..4]) != SECTION_MAGIC ||
      (!anyVersion && GetLE(data[4..6]) != SECTION_VERSION) || GetLE(data[6..10]) != upto then None
    else if GetLE(data[10..14]) != crc(data[SECTION_HDR..]) then None
    else Some(data[SECTION_HDR..])
  }

  lemma {:induction false} PutGetLE(s: seq<byte>)
    ensures PutLE(GetLE(s), |s|) == s && GetLE(s) < Pow256(|s|)
    decreases |s|
  {
    if s != [] {
      PutGetLE(s[1..]);
      assert GetLE(s) % 256 == s[0] && GetLE(s) / 256 == GetLE(s[1..]);
      assert s == [s[0]] + s[1..];
    }
  }

  // Bytes are a word's exactly when they read as it.
  lemma WordExactly(s: seq<byte>, v: nat)
    requires (|s| == 2 && v < 0x1_0000) || (|s| == 4 && v < TWO32)
    ensures GetLE(s) == v <==> s == PutLE(v, |s|)
  {
    hide GetLE, PutLE, Pow256;
    Pow256Widths();
    PutGetLE(s);
    GetPutLE(v, |s|);
  }

  lemma HeaderParts(version: nat, upto: nat, sum: nat, body: seq<byte>)
    ensures var d := Header(version, upto, sum) + body;
      d[0..4] == U32(SECTION_MAGIC) && d[4..6] == U16(version) && d[6..10] == U32(upto % TWO32) &&
        d[10..14] == U32(sum) && d[SECTION_HDR..] == body
  {
    hide PutLE;
    assert Header(version, upto, sum) == U32(SECTION_MAGIC) + U16(version) + U32(upto % TWO32) + U32(sum);
  }

  // These bytes are a frame of that version, length and checksum.
  lemma FramedExactly(data: seq<byte>, version: nat, upto: nat, sum: nat, body: seq<byte>)
    requires version < 0x1_0000 && upto < TWO32 && sum < TWO32
    ensures data == Header(version, upto, sum) + body <==>
      && |data| >= SECTION_HDR && GetLE(data[0..4]) == SECTION_MAGIC && GetLE(data[4..6]) == version &&
         GetLE(data[6..10]) == upto
      && GetLE(data[10..14]) == sum && data[SECTION_HDR..] == body
  {
    hide GetLE, PutLE, Header;
    Pow256Widths();
    HeaderParts(version, upto, sum, body);
    if |data| >= SECTION_HDR {
      WordExactly(data[0..4], SECTION_MAGIC);
      WordExactly(data[4..6], version);
      WordExactly(data[6..10], upto);
      WordExactly(data[10..14], sum);
      if data[0..4] == U32(SECTION_MAGIC) && data[4..6] == U16(version) && data[6..10] == U32(upto) &&
        data[10..14] == U32(sum) {
        PartsMake(data, version, upto, sum);
      }
    }
  }

  lemma PartsMake(data: seq<byte>, version: nat, upto: nat, sum: nat)
    requires |data| >= SECTION_HDR && upto < TWO32
    requires data[0..4] == U32(SECTION_MAGIC) && data[4..6] == U16(version) && data[6..10] == U32(upto)
    requires data[10..14] == U32(sum)
    ensures data == Header(version, upto, sum) + data[SECTION_HDR..]
  {
    hide PutLE;
    assert data == data[0..4] + data[4..6] + data[6..10] + data[10..14] + data[14..];
  }

  lemma WordBound(s: seq<byte>)
    requires |s| == 2 || |s| == 4
    ensures GetLE(s) < if |s| == 2 then 0x1_0000 else TWO32
  {
    hide GetLE;
    PutGetLE(s);
    Pow256Widths();
  }

  // A section is accepted exactly when it is this version's frame of its body for a segment of this length; for its
  // schema, when it is any version's. A segment of 4 GiB or more has none.
  lemma SectionExactly(data: seq<byte>, upto: nat, crc: seq<byte> -> nat, body: seq<byte>)
    requires crc(body) < TWO32
    ensures ReadColSection(data, upto, crc, false) == Some(body) <==>
      upto < TWO32 && data == WrapColSection(body, SECTION_VERSION, upto, crc)
    ensures ReadColSection(data, upto, crc, true) == Some(body) <==>
      upto < TWO32 && exists v: nat :: v < 0x1_0000 && data == WrapColSection(body, v, upto, crc)
  {
    hide GetLE, Header;
    if |data| >= SECTION_HDR {
      WordBound(data[6..10]);
      WordBound(data[4..6]);
      if upto < TWO32 {
        FramedExactly(data, SECTION_VERSION, upto, crc(body), body);
        FramedExactly(data, GetLE(data[4..6]), upto, crc(body), body);
        assert WrapColSection(body, GetLE(data[4..6]), upto, crc) == Header(GetLE(data[4..6]), upto, crc(body)) + body;
      }
    }
    if upto < TWO32 {
      forall v: nat | v < 0x1_0000 && data == WrapColSection(body, v, upto, crc)
        ensures ReadColSection(data, upto, crc, true) == Some(body)
      {
        FramedExactly(data, v, upto, crc(body), body);
      }
    }
  }

  // ---------------------------------------------------------------- the schema alone

  // The fields and the hot set from the front of a body; what follows is not looked at.
  function ParseSchemaOnly(s: seq<byte>): (r: Option<(seq<StoredField>, seq<nat>)>)
  {
    match ParseList(ParseField, MAX_LIST, s) { case None => None case Some((fields, c)) =>
    match ParseList(ParseColdName, MAX_LIST, c) { case None => None case Some((names, c1)) =>
    match ParseInts(c1) { case None => None case Some((hot, c2)) => if |hot| > |fields| then None
      else Some((fields, hot)) } } }
  }

  // It is the schema a full read would give, wherever a full read gives anything.
  lemma SchemaAgrees(data: seq<byte>)
    requires ParsePayload(data).Some? && |ParsePayload(data).value.hot| <= |ParsePayload(data).value.fields|
    ensures ParseSchemaOnly(data) == Some((ParsePayload(data).value.fields, ParsePayload(data).value.hot))
  {
    hide ParseList, ParseField, ParseColdName, ParseInts, ParseBlock, ParseGroup;
  }

  // And it survives any change of format behind the hot set.
  lemma SchemaSurvives(p: Payload, later: seq<byte>)
    requires FitPayload(p) && |p.hot| <= |p.fields|
    ensures ParseSchemaOnly(PutList(PutField, p.fields) +
      (PutList(PutColdName, p.coldNames) + (PutInts(p.hot) + later))) == Some((p.fields, p.hot))
  {
    hide ParseList, PutList, PutField, ParseField, PutColdName, ParseColdName, ParseInts, PutInts, FitBlock, FitGroup,
      FitField, FitCold, FitInts;
    FieldsTrip(p.fields, PutList(PutColdName, p.coldNames) + (PutInts(p.hot) + later));
    ColdNamesTrip(p.coldNames, PutInts(p.hot) + later);
    IntsTrip(p.hot, later);
  }
}
