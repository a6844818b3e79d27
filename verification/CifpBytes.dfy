/** A segment of procedures byte by byte: where every field of a procedure, a leg and a runway lies. */
module CifpBytes {
  import opened Numbers
  import opened ByteIO
  import opened Groups
  import opened Pieces
  import opened WireFields
  import opened GraphWire
  import opened GraphCodec
  import opened GraphBytes
  import opened CifpSegments

  const PROCEDURE_SIZE: nat := 33
  const LEG_SIZE: nat := 48
  const RUNWAY_SIZE: nat := 28

  // ---- What the bytes of a record spell -------------------------------------------------------

  ghost predicate LegSpelled(body: Bytes, at: nat, pool: Bytes, leg: ProcedureLeg) {
    && TextRef(body, at, pool, leg.fix.name) && TextRef(body, at + 8, pool, leg.fix.region)
    && Num(body, at + 16, 4) == leg.latitude && Num(body, at + 20, 4) == leg.longitude && Num(body, at + 24, 1) == leg.path
    && Num(body, at + 25, 4) == leg.course && Num(body, at + 29, 4) == leg.distance && Num(body, at + 33, 1) == leg.altKind
    && Int(body, at + 34, 4) == leg.alt1 && Int(body, at + 38, 4) == leg.alt2 && Num(body, at + 42, 2) == leg.rnp
    && Num(body, at + 44, 1) == leg.turn && Num(body, at + 45, 2) == leg.speed
    && (leg.isMapt <==> Num(body, at + 47, 1) % 2 == 1) && (leg.courseTrue <==> Num(body, at + 47, 1) / 2 == 1)
    && Num(body, at + 47, 1) <= 3
  }

  ghost predicate ProcedureSpelled(body: Bytes, at: nat, pool: Bytes, p: Procedure) {
    && Num(body, at, 1) == p.kind && Int(body, at + 1, 4) == p.routeType && TextRef(body, at + 5, pool, p.name)
    && TextRef(body, at + 13, pool, p.transition) && TextRef(body, at + 21, pool, p.runway) && Num(body, at + 29, 4) == |p.legs|
    && forall j: nat :: j < |p.legs| ==> LegSpelled(body, at + PROCEDURE_SIZE + LEG_SIZE * j, pool, p.legs[j])
  }

  ghost predicate RunwaySpelled(body: Bytes, at: nat, pool: Bytes, r: Runway) {
    && TextRef(body, at, pool, r.ident) && Num(body, at + 8, 8) == r.latitude && Num(body, at + 16, 8) == r.longitude
    && Int(body, at + 24, 4) == r.elevation
  }

  /** Where the k-th procedure lies; past the last of them come the runways. */
  ghost function ProcedureAt(body: Bytes, k: nat): nat {
    GroupStart(body, 4, PROCEDURE_SIZE, 29, LEG_SIZE, k)
  }

  /** A segment: how many procedures, the procedures with their legs, how many runways, the runways. */
  ghost predicate SegmentSpelled(body: Bytes, pool: Bytes, d: CifpData) {
    var at := ProcedureAt(body, |d.procedures|);
    && Num(body, 0, 4) == |d.procedures| && Num(body, at, 4) == |d.runways|
    && |body| == at + 4 + RUNWAY_SIZE * |d.runways|
    && (forall i: nat :: i < |d.procedures| ==> ProcedureSpelled(body, ProcedureAt(body, i), pool, d.procedures[i]))
    && (forall i: nat :: i < |d.runways| ==> RunwaySpelled(body, at + 4 + RUNWAY_SIZE * i, pool, d.runways[i]))
  }

  // ---- The records, field by field --------------------------------------------------------------

  lemma LegOffsets()
    ensures SizeOf(LEG[..0]) == 0 && SizeOf(LEG[..1]) == 4 && SizeOf(LEG[..2]) == 8 && SizeOf(LEG[..3]) == 12
    ensures SizeOf(LEG[..4]) == 16 && SizeOf(LEG[..5]) == 20 && SizeOf(LEG[..6]) == 24 && SizeOf(LEG[..7]) == 25
    ensures SizeOf(LEG[..8]) == 29 && SizeOf(LEG[..9]) == 33 && SizeOf(LEG[..10]) == 34 && SizeOf(LEG[..11]) == 38
    ensures SizeOf(LEG[..12]) == 42 && SizeOf(LEG[..13]) == 44 && SizeOf(LEG[..14]) == 45 && SizeOf(LEG[..15]) == 47
  {
    hide SizeOf;
    NoPrefix(LEG);
    PrefixStep(LEG, 0);
    PrefixStep(LEG, 1);
    PrefixStep(LEG, 2);
    PrefixStep(LEG, 3);
    PrefixStep(LEG, 4);
    PrefixStep(LEG, 5);
    PrefixStep(LEG, 6);
    PrefixStep(LEG, 7);
    PrefixStep(LEG, 8);
    PrefixStep(LEG, 9);
    PrefixStep(LEG, 10);
    PrefixStep(LEG, 11);
    PrefixStep(LEG, 12);
    PrefixStep(LEG, 13);
    PrefixStep(LEG, 14);
  }

  lemma LegFields(body: Bytes, at: nat, row: Row)
    requires RowFits(LEG, row) && PieceAt(body, at, Packed(LEG, row))
    ensures |row| == 16
    ensures Num(body, at, 4) == row[0] && Num(body, at + 4, 4) == row[1] && Num(body, at + 8, 4) == row[2]
    ensures Num(body, at + 12, 4) == row[3] && Num(body, at + 16, 4) == row[4] && Num(body, at + 20, 4) == row[5]
    ensures Num(body, at + 24, 1) == row[6] && Num(body, at + 25, 4) == row[7] && Num(body, at + 29, 4) == row[8]
    ensures Num(body, at + 33, 1) == row[9] && Num(body, at + 34, 4) == row[10] && Num(body, at + 38, 4) == row[11]
    ensures Num(body, at + 42, 2) == row[12] && Num(body, at + 44, 1) == row[13] && Num(body, at + 45, 2) == row[14]
    ensures Num(body, at + 47, 1) == row[15]
  {
    hide Packed, SizeOf, Span, PieceAt, Num;
    LegOffsets();
    FieldOf(body, at, LEG, row, 0, 0);
    FieldOf(body, at, LEG, row, 1, 4);
    FieldOf(body, at, LEG, row, 2, 8);
    FieldOf(body, at, LEG, row, 3, 12);
    FieldOf(body, at, LEG, row, 4, 16);
    FieldOf(body, at, LEG, row, 5, 20);
    FieldOf(body, at, LEG, row, 6, 24);
    FieldOf(body, at, LEG, row, 7, 25);
    FieldOf(body, at, LEG, row, 8, 29);
    FieldOf(body, at, LEG, row, 9, 33);
    FieldOf(body, at, LEG, row, 10, 34);
    FieldOf(body, at, LEG, row, 11, 38);
    FieldOf(body, at, LEG, row, 12, 42);
    FieldOf(body, at, LEG, row, 13, 44);
    FieldOf(body, at, LEG, row, 14, 45);
    FieldOf(body, at, LEG, row, 15, 47);
  }

  lemma ProcedureOffsets()
    ensures SizeOf(PROCEDURE[..0]) == 0 && SizeOf(PROCEDURE[..1]) == 1 && SizeOf(PROCEDURE[..2]) == 5 && SizeOf(PROCEDURE[..3]) == 9
    ensures SizeOf(PROCEDURE[..4]) == 13 && SizeOf(PROCEDURE[..5]) == 17 && SizeOf(PROCEDURE[..6]) == 21 && SizeOf(PROCEDURE[..7]) == 25
    ensures SizeOf(PROCEDURE[..8]) == 29
  {
    hide SizeOf;
    NoPrefix(PROCEDURE);
    PrefixStep(PROCEDURE, 0);
    PrefixStep(PROCEDURE, 1);
    PrefixStep(PROCEDURE, 2);
    PrefixStep(PROCEDURE, 3);
    PrefixStep(PROCEDURE, 4);
    PrefixStep(PROCEDURE, 5);
    PrefixStep(PROCEDURE, 6);
    PrefixStep(PROCEDURE, 7);
  }

  lemma ProcedureFields(body: Bytes, at: nat, row: Row)
    requires RowFits(PROCEDURE, row) && PieceAt(body, at, Packed(PROCEDURE, row))
    ensures |row| == 9
    ensures Num(body, at, 1) == row[0] && Num(body, at + 1, 4) == row[1] && Num(body, at + 5, 4) == row[2]
    ensures Num(body, at + 9, 4) == row[3] && Num(body, at + 13, 4) == row[4] && Num(body, at + 17, 4) == row[5]
    ensures Num(body, at + 21, 4) == row[6] && Num(body, at + 25, 4) == row[7] && Num(body, at + 29, 4) == row[8]
  {
    hide Packed, SizeOf, Span, PieceAt, Num;
    ProcedureOffsets();
    FieldOf(body, at, PROCEDURE, row, 0, 0);
    FieldOf(body, at, PROCEDURE, row, 1, 1);
    FieldOf(body, at, PROCEDURE, row, 2, 5);
    FieldOf(body, at, PROCEDURE, row, 3, 9);
    FieldOf(body, at, PROCEDURE, row, 4, 13);
    FieldOf(body, at, PROCEDURE, row, 5, 17);
    FieldOf(body, at, PROCEDURE, row, 6, 21);
    FieldOf(body, at, PROCEDURE, row, 7, 25);
    FieldOf(body, at, PROCEDURE, row, 8, 29);
  }

  lemma RunwayOffsets()
    ensures SizeOf(RUNWAY[..0]) == 0 && SizeOf(RUNWAY[..1]) == 4 && SizeOf(RUNWAY[..2]) == 8 && SizeOf(RUNWAY[..3]) == 16
    ensures SizeOf(RUNWAY[..4]) == 24
  {
    hide SizeOf;
    NoPrefix(RUNWAY);
    PrefixStep(RUNWAY, 0);
    PrefixStep(RUNWAY, 1);
    PrefixStep(RUNWAY, 2);
    PrefixStep(RUNWAY, 3);
  }

  lemma RunwayFields(body: Bytes, at: nat, row: Row)
    requires RowFits(RUNWAY, row) && PieceAt(body, at, Packed(RUNWAY, row))
    ensures |row| == 5
    ensures Num(body, at, 4) == row[0] && Num(body, at + 4, 4) == row[1] && Num(body, at + 8, 8) == row[2]
    ensures Num(body, at + 16, 8) == row[3] && Num(body, at + 24, 4) == row[4]
  {
    hide Packed, SizeOf, Span, PieceAt, Num;
    RunwayOffsets();
    FieldOf(body, at, RUNWAY, row, 0, 0);
    FieldOf(body, at, RUNWAY, row, 1, 4);
    FieldOf(body, at, RUNWAY, row, 2, 8);
    FieldOf(body, at, RUNWAY, row, 3, 16);
    FieldOf(body, at, RUNWAY, row, 4, 24);
  }

  // ---- What the records say is what their bytes spell --------------------------------------------

  lemma LegIsSpelled(body: Bytes, at: nat, row: Row, pool: Bytes, leg: ProcedureLeg)
    requires RowFits(LEG, row) && PieceAt(body, at, Packed(LEG, row)) && LegMeans(row, leg, pool)
    ensures LegSpelled(body, at, pool, leg)
  {
    hide Packed, SizeOf, Span, PieceAt, Num, Int, Resolve, TextRef, Signed32;
    LegFields(body, at, row);
    IntIs(body, at + 16);
    IntIs(body, at + 20);
    IntIs(body, at + 24);
    IntIs(body, at + 25);
    IntIs(body, at + 29);
    IntIs(body, at + 33);
    IntIs(body, at + 34);
    IntIs(body, at + 38);
    IntIs(body, at + 42);
    IntIs(body, at + 44);
    IntIs(body, at + 45);
    TextIsReferred(body, at, pool, leg.fix.name);
    TextIsReferred(body, at + 8, pool, leg.fix.region);
  }

  lemma OneLegIsSpelled(body: Bytes, at: nat, rows: seq<Row>, pool: Bytes, legs: seq<ProcedureLeg>, j: nat)
    requires RowsFit(LEG, rows) && PieceAt(body, at, Rows(LEG, rows)) && LegsMean(rows, legs, pool) && j < |legs|
    ensures LegSpelled(body, at + LEG_SIZE * j, pool, legs[j])
  {
    SegmentSizes();
    hide Packed, Rows, SizeOf, Span, PieceAt, LegMeans, LegSpelled, RowFits, RowsFit;
    RowOfTable(body, at, LEG, rows, j, LEG_SIZE);
    LegIsSpelled(body, at + LEG_SIZE * j, rows[j], pool, legs[j]);
  }

  lemma LegsAreSpelled(body: Bytes, at: nat, rows: seq<Row>, pool: Bytes, legs: seq<ProcedureLeg>)
    requires RowsFit(LEG, rows) && PieceAt(body, at, Rows(LEG, rows)) && LegsMean(rows, legs, pool)
    ensures forall j: nat :: j < |legs| ==> LegSpelled(body, at + LEG_SIZE * j, pool, legs[j])
  {
    hide *;
    forall j: nat | j < |legs|
      ensures LegSpelled(body, at + LEG_SIZE * j, pool, legs[j])
    {
      OneLegIsSpelled(body, at, rows, pool, legs, j);
    }
  }

  lemma ProcedureHeadIsSpelled(body: Bytes, at: nat, row: Row, pool: Bytes, p: Procedure)
    requires RowFits(PROCEDURE, row) && PieceAt(body, at, Packed(PROCEDURE, row))
    requires p.kind == Fit8(Low(row, 0)) && p.routeType == Signed32(Low(row, 1))
    requires TextAt(pool, row, 2) == Some(p.name) && TextAt(pool, row, 4) == Some(p.transition) && TextAt(pool, row, 6) == Some(p.runway)
    ensures Num(body, at, 1) == p.kind && Int(body, at + 1, 4) == p.routeType && TextRef(body, at + 5, pool, p.name)
    ensures TextRef(body, at + 13, pool, p.transition) && TextRef(body, at + 21, pool, p.runway)
  {
    hide Packed, SizeOf, Span, PieceAt, Num, Int, Resolve, TextRef, Signed32;
    ProcedureFields(body, at, row);
    IntIs(body, at);
    IntIs(body, at + 1);
    TextIsReferred(body, at + 5, pool, p.name);
    TextIsReferred(body, at + 13, pool, p.transition);
    TextIsReferred(body, at + 21, pool, p.runway);
  }

  lemma RunwayIsSpelled(body: Bytes, at: nat, row: Row, pool: Bytes, r: Runway)
    requires RowFits(RUNWAY, row) && PieceAt(body, at, Packed(RUNWAY, row)) && RunwayMeans(row, r, pool)
    ensures RunwaySpelled(body, at, pool, r)
  {
    hide Packed, SizeOf, Span, PieceAt, Num, Int, Resolve, TextRef, Signed32;
    RunwayFields(body, at, row);
    IntIs(body, at + 8);
    IntIs(body, at + 16);
    IntIs(body, at + 24);
    TextIsReferred(body, at, pool, r.ident);
  }

  lemma OneRunwayIsSpelled(body: Bytes, at: nat, rows: seq<Row>, pool: Bytes, rs: seq<Runway>, i: nat)
    requires RowsFit(RUNWAY, rows) && PieceAt(body, at, Rows(RUNWAY, rows)) && |rs| == |rows| && i < |rs|
    requires RunwayMeans(rows[i], rs[i], pool)
    ensures RunwaySpelled(body, at + RUNWAY_SIZE * i, pool, rs[i])
  {
    SegmentSizes();
    hide Packed, Rows, SizeOf, Span, PieceAt, RunwayMeans, RunwaySpelled, RowFits, RowsFit;
    RowOfTable(body, at, RUNWAY, rows, i, RUNWAY_SIZE);
    RunwayIsSpelled(body, at + RUNWAY_SIZE * i, rows[i], pool, rs[i]);
  }

  lemma RunwaysAreSpelled(body: Bytes, at: nat, rows: seq<Row>, pool: Bytes, rs: seq<Runway>)
    requires RowsFit(RUNWAY, rows) && PieceAt(body, at, Rows(RUNWAY, rows)) && |rs| == |rows|
    requires forall i :: 0 <= i < |rows| ==> RunwayMeans(rows[i], rs[i], pool)
    ensures forall i: nat :: i < |rs| ==> RunwaySpelled(body, at + RUNWAY_SIZE * i, pool, rs[i])
  {
    hide *;
    forall i: nat | i < |rs|
      ensures RunwaySpelled(body, at + RUNWAY_SIZE * i, pool, rs[i])
    {
      OneRunwayIsSpelled(body, at, rows, pool, rs, i);
    }
  }

  lemma ShapeSizes()
    ensures SizeOf(PROCEDURE) == PROCEDURE_SIZE && SizeOf(PROCEDURE[..8]) == 29 && SizeOf(LEG) == LEG_SIZE && CountsInFour(PROCEDURES)
  {
    hide SizeOf;
    SegmentSizes();
    ProcedureOffsets();
  }

  lemma ProcedureIsThere(body: Bytes, gs: seq<Group>, i: nat)
    requires GroupsFit(PROCEDURES, gs) && i < |gs| && PieceAt(body, 4, GroupsBytes(PROCEDURES, gs))
    ensures var at, g := ProcedureAt(body, i), gs[i];
            && RowFits(PROCEDURE, g.head) && RowsFit(LEG, g.rows) && Num(body, at + 29, 4) == |g.rows|
            && PieceAt(body, at, Packed(PROCEDURE, g.head)) && PieceAt(body, at + PROCEDURE_SIZE, Rows(LEG, g.rows))
  {
    ShapeSizes();
    hide Packed, Rows, GroupsBytes, SizeOf, PieceAt, Num, GroupStart, GroupsFit, RowFits, RowsFit;
    GroupIsThere(body, 4, PROCEDURES, gs, i, PROCEDURE_SIZE, 29, LEG_SIZE);
  }

  lemma ProcedureSays(g: Group, p: Procedure, pool: Bytes)
    requires ProcedureMeans(g, p, pool)
    ensures p.kind == Fit8(Low(g.head, 0)) && p.routeType == Signed32(Low(g.head, 1))
    ensures TextAt(pool, g.head, 2) == Some(p.name) && TextAt(pool, g.head, 4) == Some(p.transition)
    ensures TextAt(pool, g.head, 6) == Some(p.runway) && LegsMean(g.rows, p.legs, pool) && |p.legs| == |g.rows|
  {
    hide TextAt, LegMeans;
  }

  lemma ProcedureIs(body: Bytes, at: nat, pool: Bytes, p: Procedure)
    requires Num(body, at, 1) == p.kind && Int(body, at + 1, 4) == p.routeType && TextRef(body, at + 5, pool, p.name)
    requires TextRef(body, at + 13, pool, p.transition) && TextRef(body, at + 21, pool, p.runway) && Num(body, at + 29, 4) == |p.legs|
    requires forall j: nat :: j < |p.legs| ==> LegSpelled(body, at + PROCEDURE_SIZE + LEG_SIZE * j, pool, p.legs[j])
    ensures ProcedureSpelled(body, at, pool, p)
  {
    hide TextRef, Num, Int, LegSpelled;
  }

  lemma ProcedureIsSpelled(body: Bytes, gs: seq<Group>, i: nat, pool: Bytes, p: Procedure)
    requires GroupsFit(PROCEDURES, gs) && i < |gs| && PieceAt(body, 4, GroupsBytes(PROCEDURES, gs)) && ProcedureMeans(gs[i], p, pool)
    ensures ProcedureSpelled(body, ProcedureAt(body, i), pool, p)
  {
    hide *;
    var at := ProcedureAt(body, i);
    ProcedureIsThere(body, gs, i);
    ProcedureSays(gs[i], p, pool);
    ProcedureHeadIsSpelled(body, at, gs[i].head, pool, p);
    LegsAreSpelled(body, at + PROCEDURE_SIZE, gs[i].rows, pool, p.legs);
    ProcedureIs(body, at, pool, p);
  }

  /** Whatever procedures a segment holds, its bytes spell them, every field in its own place. */
  lemma HeldIsSpelled(body: Bytes, pool: Bytes, d: CifpData)
    requires SegmentHolds(body, pool, d)
    ensures SegmentSpelled(body, pool, d)
  {
    hide ValidData, SegmentIs, SegmentMeans, SegmentSpelled;
    var w :| SegmentIs(body, w) && SegmentMeans(w, d, pool);
    SegmentLies(body, w);
    RecordsAreSpelled(body, w, pool, d);
  }

  /** Where the counts and the tables of a segment lie. */
  lemma SegmentLies(body: Bytes, w: WireSegment)
    requires SegmentIs(body, w)
    ensures GroupsFit(PROCEDURES, w.procedures) && RowsFit(RUNWAY, w.runways)
    ensures Num(body, 0, 4) == |w.procedures| && PieceAt(body, 4, GroupsBytes(PROCEDURES, w.procedures))
    ensures var at := ProcedureAt(body, |w.procedures|);
            && Num(body, at, 4) == |w.runways| && PieceAt(body, at + 4, Rows(RUNWAY, w.runways))
            && |body| == at + 4 + RUNWAY_SIZE * |w.runways|
  {
    hide *;
    SegmentParts(body, w);
    RunwaysLast(body, w);
    CountsLie(body, w);
    ProceduresEnd(body, w.procedures);
    SegmentTablesFit(body, w);
    RunwayIs28();
  }

  lemma RunwayIs28()
    ensures RUNWAY_SIZE == 28
  {
  }

  lemma SegmentTablesFit(body: Bytes, w: WireSegment)
    requires SegmentIs(body, w)
    ensures GroupsFit(PROCEDURES, w.procedures) && RowsFit(RUNWAY, w.runways)
  {
    hide SegmentBytes, GroupFits, RowFits;
  }

  lemma ProceduresEnd(body: Bytes, gs: seq<Group>)
    requires GroupsFit(PROCEDURES, gs) && PieceAt(body, 4, GroupsBytes(PROCEDURES, gs))
    ensures ProcedureAt(body, |gs|) == 4 + |GroupsBytes(PROCEDURES, gs)|
  {
    ShapeSizes();
    hide GroupsBytes, SizeOf, GroupStart, GroupFits, PieceAt;
    GroupStartIs(body, 4, PROCEDURES, gs, |gs|);
    assert gs[..|gs|] == gs;
  }

  lemma CountsLie(body: Bytes, w: WireSegment)
    requires SegmentIs(body, w)
    ensures GroupsFit(PROCEDURES, w.procedures) && Num(body, 0, 4) == |w.procedures|
    ensures PieceAt(body, 4, GroupsBytes(PROCEDURES, w.procedures))
    ensures Num(body, 4 + |GroupsBytes(PROCEDURES, w.procedures)|, 4) == |w.runways|
  {
    SegmentParts(body, w);
    hide LittleEndian, GroupsBytes, Rows, SizeOf, Value, Span, GroupFits, RowFits, SegmentIs;
    CountWritten(|w.procedures|);
    CountWritten(|w.runways|);
  }

  lemma RunwaysLast(body: Bytes, w: WireSegment)
    requires SegmentIs(body, w)
    ensures PieceAt(body, 8 + |GroupsBytes(PROCEDURES, w.procedures)|, Rows(RUNWAY, w.runways))
  {
    hide GroupsBytes, LittleEndian, Rows, GroupFits, Span;
    var a, b, c, d := LittleEndian(|w.procedures|, 4), GroupsBytes(PROCEDURES, w.procedures), LittleEndian(|w.runways|, 4), Rows(RUNWAY, w.runways);
    assert body == (a + b + c) + d;
  }

  lemma RecordsAreSpelled(body: Bytes, w: WireSegment, pool: Bytes, d: CifpData)
    requires GroupsFit(PROCEDURES, w.procedures) && RowsFit(RUNWAY, w.runways)
    requires Num(body, 0, 4) == |w.procedures| && PieceAt(body, 4, GroupsBytes(PROCEDURES, w.procedures))
    requires var at := ProcedureAt(body, |w.procedures|);
             && Num(body, at, 4) == |w.runways| && PieceAt(body, at + 4, Rows(RUNWAY, w.runways))
             && |body| == at + 4 + RUNWAY_SIZE * |w.runways|
    requires SegmentMeans(w, d, pool)
    ensures SegmentSpelled(body, pool, d)
  {
    hide GroupsBytes, Rows, SizeOf, Num, PieceAt, ProcedureAt, GroupsFit, RowsFit, ProcedureMeans, RunwayMeans, ProcedureSpelled, RunwaySpelled;
    forall i: nat | i < |d.procedures|
      ensures ProcedureSpelled(body, ProcedureAt(body, i), pool, d.procedures[i])
    {
      ProcedureIsSpelled(body, w.procedures, i, pool, d.procedures[i]);
    }
    RunwaysAreSpelled(body, ProcedureAt(body, |w.procedures|) + 4, w.runways, pool, d.runways);
  }
}
