/** Serialising an airport's procedures into a segment, and back. */
module CifpCodec {
  import opened Numbers
  import opened ByteIO
  import opened Groups
  import opened GraphWire
  import opened GraphCodec
  import opened GraphEncoding
  import opened CifpSegments

  // ---- Deserialising --------------------------------------------------------------------------

  /** No valid leg can be read from the row. */
  ghost predicate NoLeg(row: Row, pool: Bytes) {
    forall leg :: LegMeans(row, leg, pool) ==> !ValidLeg(leg)
  }

  function LegFrom(row: Row, fix: FixedIdent): ProcedureLeg {
    ProcedureLeg(fix, Fit32(Low(row, 4)), Fit32(Low(row, 5)), Fit8(Low(row, 6)), Fit32(Low(row, 7)), Fit32(Low(row, 8)),
                 Fit8(Low(row, 9)), Signed32(Low(row, 10)), Signed32(Low(row, 11)), Fit16(Low(row, 12)), Fit8(Low(row, 13)),
                 Fit16(Low(row, 14)), Low(row, 15) % 2 == 1, Low(row, 15) / 2 == 1)
  }

  lemma LegFromMeans(row: Row, fix: FixedIdent, pool: Bytes)
    requires TextAt(pool, row, 0) == Some(fix.name) && TextAt(pool, row, 2) == Some(fix.region) && Low(row, 15) <= 3
    ensures LegMeans(row, LegFrom(row, fix), pool)
  {
    hide TextAt;
  }

  /** A row is no leg when an ident is missing or too long, a spare flag is set, or a value is out of range. */
  lemma WhyNoLeg(row: Row, pool: Bytes, fix: FixedIdent)
    ensures TextAt(pool, row, 0).None? || TextAt(pool, row, 2).None? ==> NoLeg(row, pool)
    ensures TextAt(pool, row, 0).Some? && |TextAt(pool, row, 0).value| > IDENT_CAP ==> NoLeg(row, pool)
    ensures TextAt(pool, row, 2).Some? && |TextAt(pool, row, 2).value| > REGION_CAP ==> NoLeg(row, pool)
    ensures Low(row, 15) > 3 ==> NoLeg(row, pool)
    ensures !ValidLeg(LegFrom(row, fix)) ==> NoLeg(row, pool)
  {
    hide TextAt, Low, Fit32, Fit16, Fit8, Signed32, ValidPosition;
  }

  /** Reads one leg, refusing values out of range; an unresolved reference only clears the flag. */
  method ReadLeg(row: Row, pool: Bytes, ok: bool) returns (fine: bool, ok': bool, leg: ProcedureLeg)
    ensures !fine ==> NoLeg(row, pool)
    ensures fine && ok' ==> ok && LegMeans(row, leg, pool) && ValidLeg(leg)
    ensures fine && ok && !ok' ==> NoLeg(row, pool)
  {
    hide ValidLeg, LegMeans, NoLeg, LegFrom, Resolve;
    leg := LegFrom(row, Ident([], []));
    var name, region;
    name, ok' := ResolveRef(pool, Low(row, 0), Low(row, 1), ok);
    region, ok' := ResolveRef(pool, Low(row, 2), Low(row, 3), ok');
    WhyNoLeg(row, pool, Ident([], []));
    if |name| > IDENT_CAP || |region| > REGION_CAP {
      return false, ok', leg;
    }
    WhyNoLeg(row, pool, Ident(name, region));
    leg := LegFrom(row, Ident(name, region));
    if !ValidLeg(leg) || Low(row, 15) > 3 {
      return false, ok', leg;
    }
    fine := true;
    if ok' {
      LegFromMeans(row, Ident(name, region), pool);
    }
  }

  ghost predicate NoLegs(rows: seq<Row>, pool: Bytes) {
    exists i :: 0 <= i < |rows| && NoLeg(rows[i], pool)
  }

  method ReadLegs(rows: seq<Row>, pool: Bytes, ok: bool) returns (fine: bool, ok': bool, legs: seq<ProcedureLeg>)
    ensures !fine ==> NoLegs(rows, pool)
    ensures fine && ok' ==> ok && LegsMean(rows, legs, pool) && forall i :: 0 <= i < |legs| ==> ValidLeg(legs[i])
    ensures fine && ok && !ok' ==> NoLegs(rows, pool)
  {
    hide ValidLeg, LegMeans, NoLeg;
    ok', legs := ok, [];
    for i := 0 to |rows|
      invariant |legs| == i
      invariant ok' ==> ok && forall k :: 0 <= k < i ==> LegMeans(rows[k], legs[k], pool) && ValidLeg(legs[k])
      invariant ok && !ok' ==> exists k :: 0 <= k < i && NoLeg(rows[k], pool)
    {
      var leg;
      fine, ok', leg := ReadLeg(rows[i], pool, ok');
      if !fine {
        return false, ok', legs;
      }
      legs := legs + [leg];
    }
    fine := true;
  }

  ghost predicate NoProcedure(g: Group, pool: Bytes) {
    forall p :: ProcedureMeans(g, p, pool) ==> !ValidProcedure(p)
  }

  lemma WhyNoProcedure(g: Group, pool: Bytes)
    ensures Fit8(Low(g.head, 0)) > LAST_PROCEDURE_TYPE ==> NoProcedure(g, pool)
    ensures TextAt(pool, g.head, 2).None? || TextAt(pool, g.head, 4).None? || TextAt(pool, g.head, 6).None? ==> NoProcedure(g, pool)
    ensures NoLegs(g.rows, pool) ==> NoProcedure(g, pool)
  {
    hide TextAt, Low, Fit8, Signed32, LegMeans, ValidLeg;
    if NoLegs(g.rows, pool) {
      var i :| 0 <= i < |g.rows| && NoLeg(g.rows[i], pool);
      forall p | ProcedureMeans(g, p, pool)
        ensures !ValidProcedure(p)
      {
        assert LegMeans(g.rows[i], p.legs[i], pool);
      }
    }
  }

  method ReadProcedure(g: Group, pool: Bytes, ok: bool) returns (fine: bool, ok': bool, p: Procedure)
    ensures !fine ==> NoProcedure(g, pool)
    ensures fine && ok' ==> ok && ProcedureMeans(g, p, pool) && ValidProcedure(p)
    ensures fine && ok && !ok' ==> NoProcedure(g, pool)
  {
    hide Low, Fit8, Signed32, Resolve, LegsMean, NoLegs, NoProcedure, ValidLeg;
    WhyNoProcedure(g, pool);
    p := Procedure(0, 0, [], [], [], []);
    ok' := ok;
    var kind := Fit8(Low(g.head, 0));
    if kind > LAST_PROCEDURE_TYPE {
      return false, ok', p;
    }
    var name, transition, runway, legs;
    name, ok' := ResolveRef(pool, Low(g.head, 2), Low(g.head, 3), ok');
    transition, ok' := ResolveRef(pool, Low(g.head, 4), Low(g.head, 5), ok');
    runway, ok' := ResolveRef(pool, Low(g.head, 6), Low(g.head, 7), ok');
    ghost var resolved := ok';
    fine, ok', legs := ReadLegs(g.rows, pool, ok');
    if !fine {
      return false, ok', p;
    }
    p := Procedure(kind, Signed32(Low(g.head, 1)), name, transition, runway, legs);
  }

  ghost predicate NoSegment(w: WireSegment, pool: Bytes) {
    forall d :: SegmentMeans(w, d, pool) ==> !ValidData(d)
  }

  lemma WhyNoSegment(w: WireSegment, pool: Bytes)
    ensures (exists i :: 0 <= i < |w.procedures| && NoProcedure(w.procedures[i], pool)) ==> NoSegment(w, pool)
    ensures (exists i :: 0 <= i < |w.runways| && TextAt(pool, w.runways[i], 0).None?) ==> NoSegment(w, pool)
  {
    hide TextAt, ProcedureMeans, ValidProcedure, Fit64, Signed32, Low;
    if i :| 0 <= i < |w.procedures| && NoProcedure(w.procedures[i], pool) {
      forall d | SegmentMeans(w, d, pool)
        ensures !ValidData(d)
      {
        assert ProcedureMeans(w.procedures[i], d.procedures[i], pool);
      }
    }
    if i :| 0 <= i < |w.runways| && TextAt(pool, w.runways[i], 0).None? {
      forall d: CifpData
        ensures !SegmentMeans(w, d, pool)
      {
        assert |d.runways| == |w.runways| ==> !RunwayMeans(w.runways[i], d.runways[i], pool);
      }
    }
  }

  /** Turns a segment's records into procedures, or nothing when some value or reference is bad. */
  method Understand(w: WireSegment, pool: Bytes) returns (r: Option<CifpData>)
    ensures r.Some? ==> SegmentMeans(w, r.value, pool) && ValidData(r.value)
    ensures r.None? ==> NoSegment(w, pool)
  {
    hide ProcedureMeans, ValidProcedure, NoProcedure, NoSegment, Low, Fit64, Signed32, Resolve;
    WhyNoSegment(w, pool);
    var ok := true;
    var procedures: seq<Procedure> := [];
    for i := 0 to |w.procedures|
      invariant |procedures| == i
      invariant ok ==> forall k :: 0 <= k < i ==> ProcedureMeans(w.procedures[k], procedures[k], pool) && ValidProcedure(procedures[k])
      invariant !ok ==> exists k :: 0 <= k < i && NoProcedure(w.procedures[k], pool)
    {
      var fine, p;
      fine, ok, p := ReadProcedure(w.procedures[i], pool, ok);
      if !fine {
        return None;
      }
      procedures := procedures + [p];
    }
    ghost var procsOk := ok;
    var runways: seq<Runway> := [];
    for i := 0 to |w.runways|
      invariant |runways| == i && (ok ==> procsOk)
      invariant ok ==> forall k :: 0 <= k < i ==> RunwayMeans(w.runways[k], runways[k], pool)
      invariant procsOk && !ok ==> exists k :: 0 <= k < i && TextAt(pool, w.runways[k], 0).None?
    {
      var row := w.runways[i];
      var ident;
      ident, ok := ResolveRef(pool, Low(row, 0), Low(row, 1), ok);
      runways := runways + [Runway(ident, Fit64(Low(row, 2)), Fit64(Low(row, 3)), Signed32(Low(row, 4)))];
    }
    if !ok {
      return None;
    }
    r := Some(CifpData(procedures, runways));
  }

  /** What deserialising promises on every input. */
  ghost predicate Deserialized(body: Bytes, pool: Bytes, r: Option<CifpData>) {
    && (r.Some? ==> SegmentHolds(body, pool, r.value))
    && (r.None? ==> forall d :: !SegmentHolds(body, pool, d))
  }

  /** Decodes a segment: the valid procedures the bytes hold, and nothing if they hold none. */
  method DeserializeSegment(body: Bytes, pool: Bytes) returns (r: Option<CifpData>)
    ensures Deserialized(body, pool, r)
  {
    hide SegmentMeans, ValidData, SegmentIs;
    var w := ReadSegment(body);
    if w.None? {
      return None;
    }
    r := Understand(w.value, pool);
    forall d | SegmentHolds(body, pool, d)
      ensures r.Some?
    {
      var x :| SegmentIs(body, x) && SegmentMeans(x, d, pool);
      OneSegment(body, x, w.value);
    }
  }

  // ---- Serialising ----------------------------------------------------------------------------

  /** Every count fits the 32 bits it is written in. */
  ghost predicate CountsFit(d: CifpData) {
    && |d.procedures| <= U32_MAX && |d.runways| <= U32_MAX
    && forall i :: 0 <= i < |d.procedures| ==> |d.procedures[i].legs| <= U32_MAX
  }

  function LegRow(leg: ProcedureLeg, io: nat, il: nat, ro: nat, rl: nat): Row {
    [io, il, ro, rl, leg.latitude, leg.longitude, leg.path, leg.course, leg.distance, leg.altKind, Unsigned32(leg.alt1),
     Unsigned32(leg.alt2), leg.rnp, leg.turn, leg.speed, (if leg.isMapt then 1 else 0) + (if leg.courseTrue then 2 else 0)]
  }

  lemma LegRowFits(leg: ProcedureLeg, io: nat, il: nat, ro: nat, rl: nat)
    requires io <= U32_MAX && il <= U32_MAX && ro <= U32_MAX && rl <= U32_MAX
    ensures RowFits(LEG, LegRow(leg, io, il, ro, rl))
  {
    Spans();
  }

  lemma LegRowMeans(leg: ProcedureLeg, io: nat, il: nat, ro: nat, rl: nat, pool: Bytes)
    requires Resolve(pool, io, il) == Some(leg.fix.name) && Resolve(pool, ro, rl) == Some(leg.fix.region)
    ensures LegMeans(LegRow(leg, io, il, ro, rl), leg, pool)
  {
    hide Resolve;
  }

  method WriteLegs(legs: seq<ProcedureLeg>, w: ByteWriter, pool: StringPool) returns (ghost rows: seq<Row>)
    requires pool.Valid()
    modifies w, pool
    ensures pool.Valid() && old(pool.blob) <= pool.blob
    ensures |rows| == |legs| && RowsFit(LEG, rows) && w.out == old(w.out) + Rows(LEG, rows)
    ensures |pool.blob| <= U32_MAX ==> LegsMean(rows, legs, pool.blob)
  {
    hide LegMeans, LegRow, Packed, Rows, Resolve, Span;
    rows := [];
    ghost var start := w.out;
    NoRows(LEG);
    for i := 0 to |legs|
      invariant pool.Valid() && old(pool.blob) <= pool.blob
      invariant |rows| == i && RowsFit(LEG, rows) && w.out == start + Rows(LEG, rows)
      invariant |pool.blob| <= U32_MAX ==> forall k :: 0 <= k < i ==> LegMeans(rows[k], legs[k], pool.blob)
    {
      ghost var before := pool.blob;
      var io, il := pool.Add(legs[i].fix.name);
      ghost var middle := pool.blob;
      var ro, rl := pool.Add(legs[i].fix.region);
      var row := LegRow(legs[i], io, il, ro, rl);
      LegRowFits(legs[i], io, il, ro, rl);
      RowHas(LEG, row);
      w.Record(LEG, row);
      if |pool.blob| <= U32_MAX {
        ResolveGrows(middle, pool.blob, io, il);
        LegRowMeans(legs[i], io, il, ro, rl, pool.blob);
        LegsGrow(rows, legs, before, pool.blob);
      }
      AddRow(LEG, rows, row);
      rows := rows + [row];
    }
  }

  function ProcedureHead(p: Procedure, a: nat, b: nat, c: nat, d: nat, e: nat, f: nat): Row {
    [p.kind, Unsigned32(p.routeType), a, b, c, d, e, f, |p.legs| % 0x1_0000_0000]
  }

  lemma HeadRowFits(p: Procedure, a: nat, b: nat, c: nat, d: nat, e: nat, f: nat)
    requires a <= U32_MAX && b <= U32_MAX && c <= U32_MAX && d <= U32_MAX && e <= U32_MAX && f <= U32_MAX
    ensures RowFits(PROCEDURE, ProcedureHead(p, a, b, c, d, e, f))
  {
    Spans();
  }

  lemma HeadFits(p: Procedure, a: nat, b: nat, c: nat, d: nat, e: nat, f: nat, rows: seq<Row>)
    requires a <= U32_MAX && b <= U32_MAX && c <= U32_MAX && d <= U32_MAX && e <= U32_MAX && f <= U32_MAX
    requires RowsFit(LEG, rows) && |rows| == |p.legs|
    ensures |p.legs| <= U32_MAX ==> GroupFits(PROCEDURES, Group(ProcedureHead(p, a, b, c, d, e, f), rows))
  {
    hide RowFits, Span;
    HeadRowFits(p, a, b, c, d, e, f);
  }

  lemma HeadSays(p: Procedure, a: nat, b: nat, c: nat, d: nat, e: nat, f: nat, rows: seq<Row>, pool: Bytes)
    requires Resolve(pool, a, b) == Some(p.name) && Resolve(pool, c, d) == Some(p.transition)
    requires Resolve(pool, e, f) == Some(p.runway) && LegsMean(rows, p.legs, pool)
    ensures ProcedureMeans(Group(ProcedureHead(p, a, b, c, d, e, f), rows), p, pool)
  {
    hide Resolve, LegsMean;
  }

  method WriteProcedure(p: Procedure, w: ByteWriter, pool: StringPool) returns (ghost g: Group)
    requires pool.Valid()
    modifies w, pool
    ensures pool.Valid() && old(pool.blob) <= pool.blob
    ensures |p.legs| <= U32_MAX ==> GroupFits(PROCEDURES, g) && w.out == old(w.out) + GroupBytes(PROCEDURES, g)
    ensures |pool.blob| <= U32_MAX ==> ProcedureMeans(g, p, pool.blob)
  {
    hide Packed, Rows, ProcedureMeans, ProcedureHead, LegsMean, GroupFits, GroupBytes, Resolve, Span;
    ghost var start := w.out;
    var a, b := pool.Add(p.name);
    ghost var b1 := pool.blob;
    var c, d := pool.Add(p.transition);
    ghost var b2 := pool.blob;
    var e, f := pool.Add(p.runway);
    ghost var b3 := pool.blob;
    var head := ProcedureHead(p, a, b, c, d, e, f);
    HeadRowFits(p, a, b, c, d, e, f);
    w.Record(PROCEDURE, head);
    ghost var rows := WriteLegs(p.legs, w, pool);
    g := Group(head, rows);
    HeadFits(p, a, b, c, d, e, f, rows);
    if |pool.blob| <= U32_MAX {
      ResolveGrows(b1, pool.blob, a, b);
      ResolveGrows(b2, pool.blob, c, d);
      ResolveGrows(b3, pool.blob, e, f);
      HeadSays(p, a, b, c, d, e, f, rows, pool.blob);
    }
    if |p.legs| <= U32_MAX {
      GroupBytesAre(PROCEDURES, g);
      assert w.out == start + (Packed(PROCEDURE, head) + Rows(LEG, rows));
    }
  }

  lemma GroupBytesAre(sh: Shape, g: Group)
    requires GroupFits(sh, g)
    ensures GroupBytes(sh, g) == Packed(sh.head, g.head) + Rows(sh.rows, g.rows)
  {
    hide Packed, Rows;
  }

  method WriteProcedures(ps: seq<Procedure>, w: ByteWriter, pool: StringPool) returns (ghost gs: seq<Group>)
    requires pool.Valid()
    modifies w, pool
    ensures pool.Valid() && old(pool.blob) <= pool.blob && |gs| == |ps|
    ensures (forall i :: 0 <= i < |ps| ==> |ps[i].legs| <= U32_MAX) ==>
              GroupsFit(PROCEDURES, gs) && w.out == old(w.out) + GroupsBytes(PROCEDURES, gs)
    ensures |pool.blob| <= U32_MAX ==> forall i :: 0 <= i < |ps| ==> ProcedureMeans(gs[i], ps[i], pool.blob)
  {
    hide ProcedureMeans, GroupFits, GroupBytes, GroupsBytes;
    gs := [];
    ghost var start := w.out;
    ghost var fine := forall i :: 0 <= i < |ps| ==> |ps[i].legs| <= U32_MAX;
    NoGroups(PROCEDURES, [], 0);
    for i := 0 to |ps|
      invariant pool.Valid() && old(pool.blob) <= pool.blob && |gs| == i
      invariant fine ==> GroupsFit(PROCEDURES, gs) && w.out == start + GroupsBytes(PROCEDURES, gs)
      invariant |pool.blob| <= U32_MAX ==> forall k :: 0 <= k < i ==> ProcedureMeans(gs[k], ps[k], pool.blob)
    {
      ghost var before := pool.blob;
      ghost var next := WriteProcedure(ps[i], w, pool);
      if |pool.blob| <= U32_MAX {
        ProceduresGrow(gs, ps, before, pool.blob);
      }
      if fine {
        GroupsNext(PROCEDURES, gs, next);
      }
      gs := gs + [next];
    }
  }

  function RunwayRow(r: Runway, offset: nat, len: nat): Row {
    [offset, len, r.latitude, r.longitude, Unsigned32(r.elevation)]
  }

  lemma RunwayRowMeans(r: Runway, offset: nat, len: nat, pool: Bytes)
    requires offset <= U32_MAX && len <= U32_MAX
    ensures RowFits(RUNWAY, RunwayRow(r, offset, len))
    ensures Resolve(pool, offset, len) == Some(r.ident) ==> RunwayMeans(RunwayRow(r, offset, len), r, pool)
  {
    hide Resolve;
    Spans();
  }

  method WriteRunways(rs: seq<Runway>, w: ByteWriter, pool: StringPool) returns (ghost rows: seq<Row>)
    requires pool.Valid()
    modifies w, pool
    ensures pool.Valid() && old(pool.blob) <= pool.blob
    ensures |rows| == |rs| && RowsFit(RUNWAY, rows) && w.out == old(w.out) + Rows(RUNWAY, rows)
    ensures |pool.blob| <= U32_MAX ==> forall k :: 0 <= k < |rs| ==> RunwayMeans(rows[k], rs[k], pool.blob)
  {
    hide RunwayMeans, RunwayRow, Packed, Rows, Resolve, Span;
    rows := [];
    ghost var start := w.out;
    NoRows(RUNWAY);
    for i := 0 to |rs|
      invariant pool.Valid() && old(pool.blob) <= pool.blob
      invariant |rows| == i && RowsFit(RUNWAY, rows) && w.out == start + Rows(RUNWAY, rows)
      invariant |pool.blob| <= U32_MAX ==> forall k :: 0 <= k < i ==> RunwayMeans(rows[k], rs[k], pool.blob)
    {
      ghost var before := pool.blob;
      var offset, len := pool.Add(rs[i].ident);
      RunwayRowMeans(rs[i], offset, len, pool.blob);
      RowHas(RUNWAY, RunwayRow(rs[i], offset, len));
      w.Record(RUNWAY, RunwayRow(rs[i], offset, len));
      if |pool.blob| <= U32_MAX {
        RunwaysGrow(rows, rs, before, pool.blob);
      }
      AddRow(RUNWAY, rows, RunwayRow(rs[i], offset, len));
      rows := rows + [RunwayRow(rs[i], offset, len)];
    }
  }

  /** Serialises an airport's procedures; the segment then holds them, if they are valid and every count fits its field. */
  method SerializeSegment(d: CifpData, pool: StringPool) returns (body: Bytes)
    requires pool.Valid()
    modifies pool
    ensures pool.Valid() && old(pool.blob) <= pool.blob
    ensures ValidData(d) && CountsFit(d) && |pool.blob| <= U32_MAX ==> SegmentHolds(body, pool.blob, d)
  {
    hide ProcedureMeans, RunwayMeans, GroupsFit, GroupsBytes, Rows, LittleEndian, Span, ValidData, SegmentHolds, RowsFit;
    var w := new ByteWriter();
    w.Unsigned(|d.procedures| % 0x1_0000_0000, 4);
    ghost var procedures := WriteProcedures(d.procedures, w, pool);
    ghost var pool1 := pool.blob;
    w.Unsigned(|d.runways| % 0x1_0000_0000, 4);
    ghost var runways := WriteRunways(d.runways, w, pool);
    body := w.out;
    if ValidData(d) && CountsFit(d) && |pool.blob| <= U32_MAX {
      assert [] + LittleEndian(|procedures|, 4) == LittleEndian(|procedures|, 4);
      WrittenIsHeld(body, d, procedures, runways, pool1, pool.blob);
    }
  }

  lemma WrittenIsHeld(body: Bytes, d: CifpData, procedures: seq<Group>, runways: seq<Row>, early: Bytes, pool: Bytes)
    requires ValidData(d) && CountsFit(d) && early <= pool
    requires |procedures| == |d.procedures| && GroupsFit(PROCEDURES, procedures) && |runways| == |d.runways| && RowsFit(RUNWAY, runways)
    requires body == LittleEndian(|procedures|, 4) + GroupsBytes(PROCEDURES, procedures) + LittleEndian(|runways|, 4)
                     + Rows(RUNWAY, runways)
    requires forall i :: 0 <= i < |procedures| ==> ProcedureMeans(procedures[i], d.procedures[i], early)
    requires forall i :: 0 <= i < |runways| ==> RunwayMeans(runways[i], d.runways[i], pool)
    ensures SegmentHolds(body, pool, d)
  {
    hide ProcedureMeans, RunwayMeans, GroupsFit, GroupsBytes, Rows, LittleEndian, ValidData, Span;
    var wire := WireSegment(procedures, runways);
    ProceduresGrow(procedures, d.procedures, early, pool);
    FourInOrder(LittleEndian(|procedures|, 4), GroupsBytes(PROCEDURES, procedures), LittleEndian(|runways|, 4),
                Rows(RUNWAY, runways));
    assert SegmentIs(body, wire) && SegmentMeans(wire, d, pool);
  }

  lemma FourInOrder(a: Bytes, b: Bytes, c: Bytes, d: Bytes)
    ensures a + b + c + d == a + (b + (c + d))
  {
  }

  /** Decoding a segment that holds d gives d, against the pool however much it has grown since. */
  lemma DeserializeUndoesSerialize(body: Bytes, pool: Bytes, more: Bytes, d: CifpData, r: Option<CifpData>)
    requires SegmentHolds(body, pool, d) && pool <= more && Deserialized(body, more, r)
    ensures r == Some(d)
  {
    hide SegmentHolds;
    SegmentHeldGrows(body, pool, more, d);
    if r.Some? {
      SegmentHoldsOne(body, more, d, r.value);
    }
  }
}
