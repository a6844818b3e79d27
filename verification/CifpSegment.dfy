/** One airport's procedures as a segment body: encoding, and decoding from arbitrary bytes. */
module CifpSegments {
  import opened Numbers
  import opened ByteIO
  import opened Groups
  import opened GraphWire
  import opened GraphCodec
  import opened GraphEncoding

  const PROCEDURE: Widths := [1, 4, 4, 4, 4, 4, 4, 4, 4]
  const LEG: Widths := [4, 4, 4, 4, 4, 4, 1, 4, 4, 1, 4, 4, 2, 1, 2, 1]
  const RUNWAY: Widths := [4, 4, 8, 8, 4]
  const PROCEDURES := Shape(PROCEDURE, 8, LEG)

  const LAST_PROCEDURE_TYPE := 2
  const LAST_PATH_TERMINATOR := 23
  const LAST_ALT_KIND := 4
  const TURN_LEFT := 76
  const TURN_RIGHT := 82

  datatype ProcedureLeg = ProcedureLeg(
    fix: FixedIdent, latitude: u32, longitude: u32, path: u8, course: u32, distance: u32, altKind: u8, alt1: i32, alt2: i32,
    rnp: u16, turn: u8, speed: u16, isMapt: bool, courseTrue: bool)

  datatype Procedure = Procedure(
    kind: u8, routeType: i32, name: Bytes, transition: Bytes, runway: Bytes, legs: seq<ProcedureLeg>)

  datatype Runway = Runway(ident: Bytes, latitude: u64, longitude: u64, elevation: i32)

  datatype CifpData = CifpData(procedures: seq<Procedure>, runways: seq<Runway>)

  // ---- Values the decoder accepts -------------------------------------------------------------

  const INFINITY_BITS := 0x7F80_0000
  const NINETY_BITS := 0x42B4_0000
  const HALF_CIRCLE_BITS := 0x4334_0000

  /** The bits of a 32-bit float's magnitude; larger magnitudes have larger bits. */
  function Magnitude(bits: u32): nat { bits % 0x8000_0000 }

  predicate IsNaN(bits: u32) { Magnitude(bits) > INFINITY_BITS }

  /** A fix position is absent at both ends of the pair, or a coordinate. */
  predicate ValidPosition(latitude: u32, longitude: u32) {
    IsNaN(latitude) == IsNaN(longitude)
    && (!IsNaN(latitude) ==> Magnitude(latitude) <= NINETY_BITS && Magnitude(longitude) <= HALF_CIRCLE_BITS)
  }

  predicate ValidLeg(leg: ProcedureLeg) {
    && leg.path <= LAST_PATH_TERMINATOR && leg.altKind <= LAST_ALT_KIND
    && (leg.turn == 0 || leg.turn == TURN_LEFT || leg.turn == TURN_RIGHT)
    && ValidPosition(leg.latitude, leg.longitude)
  }

  ghost predicate ValidProcedure(p: Procedure) {
    p.kind <= LAST_PROCEDURE_TYPE && forall i :: 0 <= i < |p.legs| ==> ValidLeg(p.legs[i])
  }

  ghost predicate ValidData(d: CifpData) {
    forall i :: 0 <= i < |d.procedures| ==> ValidProcedure(d.procedures[i])
  }

  /** The bits of a 32-bit float that is no number: a full exponent and a fraction that is not zero. */
  predicate NoNumber(bits: u32) { bits / 0x80_0000 % 0x100 == 0xFF && bits % 0x80_0000 != 0 }

  /** The exponent and fraction of 90.0 are 133 and 0x340000, of 180.0 they are 134 and 0x340000. */
  predicate Within(bits: u32, exponent: nat) {
    var e := bits / 0x80_0000 % 0x100;
    e < exponent || (e == exponent && bits % 0x80_0000 <= 0x34_0000)
  }

  lemma BitsInRange(bits: u32)
    ensures IsNaN(bits) <==> NoNumber(bits)
    ensures Magnitude(bits) <= NINETY_BITS <==> Within(bits, 133)
    ensures Magnitude(bits) <= HALF_CIRCLE_BITS <==> Within(bits, 134)
  {
    var m := Magnitude(bits);
    assert m / 0x80_0000 == bits / 0x80_0000 % 0x100 && m % 0x80_0000 == bits % 0x80_0000;
  }

  /**
    * The legs that pass: one of 24 path terminators and five altitude kinds, a left, right or open turn, and a position
    * that is missing altogether or within 90 and 180 degrees.
    */
  lemma LegsInRange(leg: ProcedureLeg)
    ensures ValidLeg(leg) <==>
              && leg.path < 24 && leg.altKind < 5 && leg.turn in [0, 'L' as int, 'R' as int]
              && (|| (NoNumber(leg.latitude) && NoNumber(leg.longitude))
                  || (Within(leg.latitude, 133) && Within(leg.longitude, 134)))
  {
    hide Magnitude, NoNumber, Within;
    BitsInRange(leg.latitude);
    BitsInRange(leg.longitude);
  }

  // ---- The bytes ------------------------------------------------------------------------------

  lemma SegmentSizes()
    ensures SizeOf(PROCEDURE) == 33 && SizeOf(LEG) == 48 && SizeOf(RUNWAY) == 28 && ShapeOk(PROCEDURES)
  {
    hide SizeOf;
    SizeEight(1, 4, 4, 4, 4, 4, 4, 4);
    SizeNext([1, 4, 4, 4, 4, 4, 4, 4], 4);
    assert [1, 4, 4, 4, 4, 4, 4, 4] + [4] == PROCEDURE;
    SizeFive(4, 4, 8, 8, 4);
    SizeEight(4, 4, 4, 4, 4, 4, 1, 4);
    var l8 := [4, 4, 4, 4, 4, 4, 1, 4];
    SizeNext(l8, 4);
    SizeNext(l8 + [4], 1);
    SizeNext(l8 + [4] + [1], 4);
    SizeNext(l8 + [4] + [1] + [4], 4);
    SizeNext(l8 + [4] + [1] + [4] + [4], 2);
    SizeNext(l8 + [4] + [1] + [4] + [4] + [2], 1);
    SizeNext(l8 + [4] + [1] + [4] + [4] + [2] + [1], 2);
    SizeNext(l8 + [4] + [1] + [4] + [4] + [2] + [1] + [2], 1);
    assert l8 + [4] + [1] + [4] + [4] + [2] + [1] + [2] + [1] == LEG;
  }

  datatype WireSegment = WireSegment(procedures: seq<Group>, runways: seq<Row>)

  ghost predicate SegmentFits(w: WireSegment) {
    && |w.procedures| <= U32_MAX && |w.runways| <= U32_MAX
    && GroupsFit(PROCEDURES, w.procedures) && RowsFit(RUNWAY, w.runways)
  }

  ghost function SegmentBytes(w: WireSegment): Bytes
    requires SegmentFits(w)
  {
    LittleEndian(|w.procedures|, 4)
    + (GroupsBytes(PROCEDURES, w.procedures) + (LittleEndian(|w.runways|, 4) + Rows(RUNWAY, w.runways)))
  }

  ghost predicate SegmentIs(body: Bytes, w: WireSegment) {
    SegmentFits(w) && SegmentBytes(w) == body
  }

  lemma SameCount(x: nat, y: nat, a: Bytes, b: Bytes)
    requires x <= U32_MAX && y <= U32_MAX && LittleEndian(x, 4) + a == LittleEndian(y, 4) + b
    ensures x == y && a == b
  {
    Spans();
    ValueOfWritten(x, 4);
    ValueOfWritten(y, 4);
    hide LittleEndian, Value, Span;
    SameSplit(LittleEndian(x, 4), a, LittleEndian(y, 4), b);
  }

  /** A segment's bytes determine its records. */
  lemma OneSegment(body: Bytes, x: WireSegment, y: WireSegment)
    requires SegmentIs(body, x) && SegmentIs(body, y)
    ensures x == y
  {
    hide LittleEndian, GroupsBytes, GroupsFit, Rows, SizeOf;
    var xr, yr := Rows(RUNWAY, x.runways), Rows(RUNWAY, y.runways);
    var xm, ym := LittleEndian(|x.runways|, 4) + xr, LittleEndian(|y.runways|, 4) + yr;
    SameCount(|x.procedures|, |y.procedures|, GroupsBytes(PROCEDURES, x.procedures) + xm,
              GroupsBytes(PROCEDURES, y.procedures) + ym);
    SameGroups(PROCEDURES, x.procedures, y.procedures, xm, ym);
    SameCount(|x.runways|, |y.runways|, xr, yr);
    assert xr + [] == xr && yr + [] == yr;
    SameRows(RUNWAY, x.runways, y.runways, [], []);
  }

  /** What a reader meets in data laid out as this segment. */
  ghost predicate SegmentShape(body: Bytes, x: WireSegment, n: nat) {
    && |body| >= 4 && Value(body[..4]) == |x.procedures| == n && n * 33 <= |body| - 4
    && GroupsAt(PROCEDURES, body, 4, n, x.procedures)
    && var at := 4 + |GroupsBytes(PROCEDURES, x.procedures)|;
       && at + 4 <= |body| && Value(body[at..at + 4]) == |x.runways| && at + 4 + |x.runways| * 28 == |body|
  }

  lemma FourParts(body: Bytes, a: Bytes, b: Bytes, c: Bytes, d: Bytes)
    requires body == a + (b + (c + d))
    ensures |body| == |a| + |b| + |c| + |d| && body[..|a|] == a && body[|a|..|a| + |b|] == b
    ensures body[|a| + |b|..|a| + |b| + |c|] == c
  {
  }

  lemma CountWritten(n: nat)
    requires n <= U32_MAX
    ensures |LittleEndian(n, 4)| == 4 && Value(LittleEndian(n, 4)) == n
  {
    Spans();
    ValueOfWritten(n, 4);
  }

  lemma SegmentHasShape(body: Bytes, x: WireSegment)
    requires SegmentIs(body, x)
    ensures SegmentShape(body, x, |x.procedures|)
  {
    SegmentParts(body, x);
    hide LittleEndian, GroupsBytes, GroupsFit, Rows, SizeOf, Value, Span, SegmentBytes;
    CountWritten(|x.procedures|);
    CountWritten(|x.runways|);
    var at := 4 + |GroupsBytes(PROCEDURES, x.procedures)|;
    assert GroupsAt(PROCEDURES, body, 4, |x.procedures|, x.procedures);
  }

  lemma RunwaySizes(rows: seq<Row>)
    requires RowsFit(RUNWAY, rows)
    ensures |Rows(RUNWAY, rows)| == |rows| * SizeOf(RUNWAY)
  {
    RowsSize(RUNWAY, rows);
    hide Rows, SizeOf, Span;
  }

  lemma SegmentBytesAre(x: WireSegment)
    requires SegmentFits(x)
    ensures SegmentBytes(x) == LittleEndian(|x.procedures|, 4)
              + (GroupsBytes(PROCEDURES, x.procedures) + (LittleEndian(|x.runways|, 4) + Rows(RUNWAY, x.runways)))
  {
    hide GroupsBytes, LittleEndian, Rows, SegmentFits;
  }

  lemma SegmentParts(body: Bytes, x: WireSegment)
    requires SegmentIs(body, x)
    ensures GroupsFit(PROCEDURES, x.procedures) && |x.procedures| <= U32_MAX && |x.runways| <= U32_MAX
    ensures var at := 4 + |GroupsBytes(PROCEDURES, x.procedures)|;
            && at + 4 + |x.runways| * 28 == |body| && at - 4 >= |x.procedures| * 33
            && body[..4] == LittleEndian(|x.procedures|, 4) && body[4..at] == GroupsBytes(PROCEDURES, x.procedures)
            && body[at..at + 4] == LittleEndian(|x.runways|, 4)
  {
    SegmentSizes();
    hide LittleEndian, GroupsBytes, GroupsFit, Rows, SizeOf, Value, Span, SegmentBytes;
    RunwaySizes(x.runways);
    GroupsSize(PROCEDURES, x.procedures);
    SegmentBytesAre(x);
    FourParts(body, LittleEndian(|x.procedures|, 4), GroupsBytes(PROCEDURES, x.procedures), LittleEndian(|x.runways|, 4),
              Rows(RUNWAY, x.runways));
  }

  /** Reads a segment's records, checking each count against the bytes left. */
  method ReadSegment(body: Bytes) returns (w: Option<WireSegment>)
    ensures w.Some? ==> SegmentIs(body, w.value)
    ensures w.None? ==> forall x :: !SegmentIs(body, x)
  {
    hide SegmentIs, Rows, SizeOf, Value, Span, GroupsBytes, GroupsFit, GroupsAt, LittleEndian, RowFits;
    SegmentSizes();
    var reader := new ByteReader(body);
    var n := reader.Unsigned(4);
    forall x | SegmentIs(body, x)
      ensures SegmentShape(body, x, n) && reader.ok
    {
      SegmentHasShape(body, x);
      assert body[0..4] == body[..4];
    }
    if !reader.ok || n > reader.Remaining() / 33 {
      return None;
    }
    Reserve(n, 33, reader.Remaining());
    var fine, procedures := ReadGroups(reader, PROCEDURES, n);
    if !fine || !reader.ok {
      return None;
    }
    ghost var at := reader.pos;
    forall x | SegmentIs(body, x)
      ensures x.procedures == procedures && at + 4 <= |body| && Value(body[at..at + 4]) == |x.runways|
      ensures at + 4 + |x.runways| * 28 == |body|
    {
      assert SegmentShape(body, x, n);
      assert x.procedures == procedures;
    }
    var m := reader.Unsigned(4);
    if !reader.ok || m > reader.Remaining() / 28 {
      return None;
    }
    Reserve(m, 28, reader.Remaining());
    ghost var middle := reader.pos;
    var runways := reader.Table(RUNWAY, m);
    if !reader.ok {
      return None;
    }
    if reader.Remaining() != 0 {
      return None;
    }
    w := Some(WireSegment(procedures, runways));
    BuildSegment(body, w.value, n, at, middle, m);
  }

  lemma BuildSegment(body: Bytes, w: WireSegment, n: nat, at: nat, middle: nat, m: nat)
    requires 4 <= at <= middle <= |body| && middle == at + 4 && |w.procedures| == n && |w.runways| == m
    requires n == Value(body[0..4]) && m == Value(body[at..middle])
    requires GroupsFit(PROCEDURES, w.procedures) && GroupsBytes(PROCEDURES, w.procedures) == body[4..at]
    requires RowsFit(RUNWAY, w.runways) && Rows(RUNWAY, w.runways) == body[middle..|body|]
    ensures SegmentIs(body, w)
  {
    CountRead(body[0..4]);
    CountRead(body[at..middle]);
    hide LittleEndian, GroupsBytes, GroupsFit, Rows, SizeOf, Value, Span, RowFits;
    InFour(body, 4, at, middle);
  }

  lemma CountRead(bs: Bytes)
    requires |bs| == 4
    ensures Value(bs) <= U32_MAX && LittleEndian(Value(bs), 4) == bs
  {
    Spans();
    ValueFits(bs);
    WrittenOfValue(bs);
  }

  lemma InFour(body: Bytes, i: nat, j: nat, k: nat)
    requires i <= j <= k <= |body|
    ensures body == body[0..i] + (body[i..j] + (body[j..k] + body[k..|body|]))
  {
  }

  // ---- What the records say ---------------------------------------------------------------------

  ghost predicate LegMeans(row: Row, leg: ProcedureLeg, pool: Bytes) {
    && TextAt(pool, row, 0) == Some(leg.fix.name) && TextAt(pool, row, 2) == Some(leg.fix.region)
    && leg.latitude == Fit32(Low(row, 4)) && leg.longitude == Fit32(Low(row, 5)) && leg.path == Fit8(Low(row, 6))
    && leg.course == Fit32(Low(row, 7)) && leg.distance == Fit32(Low(row, 8)) && leg.altKind == Fit8(Low(row, 9))
    && leg.alt1 == Signed32(Low(row, 10)) && leg.alt2 == Signed32(Low(row, 11)) && leg.rnp == Fit16(Low(row, 12))
    && leg.turn == Fit8(Low(row, 13)) && leg.speed == Fit16(Low(row, 14))
    && Low(row, 15) == (if leg.isMapt then 1 else 0) + (if leg.courseTrue then 2 else 0)
  }

  ghost predicate LegsMean(rows: seq<Row>, legs: seq<ProcedureLeg>, pool: Bytes) {
    |legs| == |rows| && forall i :: 0 <= i < |rows| ==> LegMeans(rows[i], legs[i], pool)
  }

  ghost predicate ProcedureMeans(g: Group, p: Procedure, pool: Bytes) {
    && p.kind == Fit8(Low(g.head, 0)) && p.routeType == Signed32(Low(g.head, 1))
    && TextAt(pool, g.head, 2) == Some(p.name) && TextAt(pool, g.head, 4) == Some(p.transition)
    && TextAt(pool, g.head, 6) == Some(p.runway) && LegsMean(g.rows, p.legs, pool)
  }

  ghost predicate RunwayMeans(row: Row, r: Runway, pool: Bytes) {
    && TextAt(pool, row, 0) == Some(r.ident) && r.latitude == Fit64(Low(row, 2)) && r.longitude == Fit64(Low(row, 3))
    && r.elevation == Signed32(Low(row, 4))
  }

  ghost predicate SegmentMeans(w: WireSegment, d: CifpData, pool: Bytes) {
    && |d.procedures| == |w.procedures| && |d.runways| == |w.runways|
    && (forall i :: 0 <= i < |w.procedures| ==> ProcedureMeans(w.procedures[i], d.procedures[i], pool))
    && (forall i :: 0 <= i < |w.runways| ==> RunwayMeans(w.runways[i], d.runways[i], pool))
  }

  /** The bytes hold valid procedures, and they are d. */
  ghost predicate SegmentHolds(body: Bytes, pool: Bytes, d: CifpData) {
    ValidData(d) && exists w :: SegmentIs(body, w) && SegmentMeans(w, d, pool)
  }

  lemma OneLeg(row: Row, x: ProcedureLeg, y: ProcedureLeg, pool: Bytes)
    requires LegMeans(row, x, pool) && LegMeans(row, y, pool)
    ensures x == y
  {
    hide TextAt, Low, Fit32, Fit16, Fit8, Signed32;
  }

  lemma OneProcedure(g: Group, x: Procedure, y: Procedure, pool: Bytes)
    requires ProcedureMeans(g, x, pool) && ProcedureMeans(g, y, pool)
    ensures x == y
  {
    hide TextAt, Low, Fit8, Signed32, LegMeans;
    forall i | 0 <= i < |x.legs|
      ensures x.legs[i] == y.legs[i]
    {
      OneLeg(g.rows[i], x.legs[i], y.legs[i], pool);
    }
    assert x.legs == y.legs;
  }

  lemma OneRunway(row: Row, x: Runway, y: Runway, pool: Bytes)
    requires RunwayMeans(row, x, pool) && RunwayMeans(row, y, pool)
    ensures x == y
  {
    hide TextAt, Low, Fit64, Signed32;
  }

  lemma SegmentMeansOne(w: WireSegment, x: CifpData, y: CifpData, pool: Bytes)
    requires SegmentMeans(w, x, pool) && SegmentMeans(w, y, pool)
    ensures x == y
  {
    hide ProcedureMeans, RunwayMeans;
    forall i | 0 <= i < |x.procedures|
      ensures x.procedures[i] == y.procedures[i]
    {
      OneProcedure(w.procedures[i], x.procedures[i], y.procedures[i], pool);
    }
    forall i | 0 <= i < |x.runways|
      ensures x.runways[i] == y.runways[i]
    {
      OneRunway(w.runways[i], x.runways[i], y.runways[i], pool);
    }
    assert x.procedures == y.procedures && x.runways == y.runways;
  }

  /** No bytes hold two different sets of procedures. */
  lemma SegmentHoldsOne(body: Bytes, pool: Bytes, x: CifpData, y: CifpData)
    requires SegmentHolds(body, pool, x) && SegmentHolds(body, pool, y)
    ensures x == y
  {
    hide SegmentMeans, SegmentIs, ValidData;
    var v :| SegmentIs(body, v) && SegmentMeans(v, x, pool);
    var w :| SegmentIs(body, w) && SegmentMeans(w, y, pool);
    OneSegment(body, v, w);
    SegmentMeansOne(v, x, y, pool);
  }

  // ---- Later pool text changes nothing ------------------------------------------------------------

  lemma LegGrows(row: Row, leg: ProcedureLeg, pool: Bytes, more: Bytes)
    requires LegMeans(row, leg, pool) && pool <= more
    ensures LegMeans(row, leg, more)
  {
    hide TextAt, Low, Fit32, Fit16, Fit8, Signed32;
    TextGrows(pool, more, row, 0);
    TextGrows(pool, more, row, 2);
  }

  lemma LegsGrow(rows: seq<Row>, legs: seq<ProcedureLeg>, pool: Bytes, more: Bytes)
    requires |rows| <= |legs| && pool <= more && forall i :: 0 <= i < |rows| ==> LegMeans(rows[i], legs[i], pool)
    ensures forall i :: 0 <= i < |rows| ==> LegMeans(rows[i], legs[i], more)
  {
    hide LegMeans;
    forall i | 0 <= i < |rows|
      ensures LegMeans(rows[i], legs[i], more)
    {
      LegGrows(rows[i], legs[i], pool, more);
    }
  }

  lemma ProcedureGrows(g: Group, p: Procedure, pool: Bytes, more: Bytes)
    requires ProcedureMeans(g, p, pool) && pool <= more
    ensures ProcedureMeans(g, p, more)
  {
    hide TextAt, Low, Fit8, Signed32, LegMeans;
    TextGrows(pool, more, g.head, 2);
    TextGrows(pool, more, g.head, 4);
    TextGrows(pool, more, g.head, 6);
    LegsGrow(g.rows, p.legs, pool, more);
  }

  lemma ProceduresGrow(gs: seq<Group>, ps: seq<Procedure>, pool: Bytes, more: Bytes)
    requires |gs| <= |ps| && pool <= more && forall i :: 0 <= i < |gs| ==> ProcedureMeans(gs[i], ps[i], pool)
    ensures forall i :: 0 <= i < |gs| ==> ProcedureMeans(gs[i], ps[i], more)
  {
    hide ProcedureMeans;
    forall i | 0 <= i < |gs|
      ensures ProcedureMeans(gs[i], ps[i], more)
    {
      ProcedureGrows(gs[i], ps[i], pool, more);
    }
  }

  lemma RunwaysGrow(rows: seq<Row>, rs: seq<Runway>, pool: Bytes, more: Bytes)
    requires |rows| <= |rs| && pool <= more && forall i :: 0 <= i < |rows| ==> RunwayMeans(rows[i], rs[i], pool)
    ensures forall i :: 0 <= i < |rows| ==> RunwayMeans(rows[i], rs[i], more)
  {
    hide TextAt, Low, Fit64, Signed32;
    forall i | 0 <= i < |rows|
      ensures RunwayMeans(rows[i], rs[i], more)
    {
      TextGrows(pool, more, rows[i], 0);
    }
  }

  lemma SegmentGrows(w: WireSegment, d: CifpData, pool: Bytes, more: Bytes)
    requires SegmentMeans(w, d, pool) && pool <= more
    ensures SegmentMeans(w, d, more)
  {
    hide ProcedureMeans, RunwayMeans;
    ProceduresGrow(w.procedures, d.procedures, pool, more);
    RunwaysGrow(w.runways, d.runways, pool, more);
  }

  lemma SegmentHeldGrows(body: Bytes, pool: Bytes, more: Bytes, d: CifpData)
    requires SegmentHolds(body, pool, d) && pool <= more
    ensures SegmentHolds(body, more, d)
  {
    hide SegmentMeans, SegmentIs, ValidData;
    var w :| SegmentIs(body, w) && SegmentMeans(w, d, pool);
    SegmentGrows(w, d, pool, more);
  }
}
