/** The graph section byte by byte: where every field of a snapshot lies. */
module GraphBytes {
  import opened Numbers
  import opened ByteIO
  import opened Groups
  import opened Pieces
  import opened WireFields
  import opened GraphWire
  import opened GraphCodec

  const VERTICES_AT: nat := 20
  const VERTEX_SIZE: nat := 34
  const EDGE_SIZE: nat := 15
  const SECTOR_SIZE: nat := 28
  const ARC_SIZE: nat := 12

  // ---- Where the tables start -----------------------------------------------------------------

  function AirportsAt(s: GraphSnapshot): nat { VERTICES_AT + VERTEX_SIZE * |s.coords| }

  function OffsetsAt(s: GraphSnapshot): nat { AirportsAt(s) + 4 * |s.elevations| }

  function EdgesAt(s: GraphSnapshot): nat { OffsetsAt(s) + 4 * |s.offsets| }

  function NamesAt(s: GraphSnapshot): nat { EdgesAt(s) + EDGE_SIZE * |s.edges| }

  function CellsAt(s: GraphSnapshot): nat { NamesAt(s) + 8 * |s.airwayNames| }

  function SectorsAt(s: GraphSnapshot): nat { CellsAt(s) + 2 * |s.cells| }

  // ---- What the bytes of a record spell -------------------------------------------------------

  ghost predicate VertexSpelled(body: Bytes, at: nat, pool: Bytes, p: Position, ident: FixedIdent, outbound: u8, inbound: u8, kind: u8) {
    && Num(body, at, 8) == p.latitude && Num(body, at + 8, 8) == p.longitude
    && TextRef(body, at + 16, pool, ident.name) && TextRef(body, at + 24, pool, ident.region)
    && Num(body, at + 32, 1) % 2 == outbound && Num(body, at + 32, 1) / 2 % 2 == inbound
    && Num(body, at + 33, 1) == kind
  }

  ghost predicate EdgeSpelled(body: Bytes, at: nat, e: CsrEdge) {
    && Int(body, at, 4) == e.to && Num(body, at + 4, 4) == e.distance && Num(body, at + 8, 2) == e.airwayId
    && Int(body, at + 10, 2) == e.baseFl && Int(body, at + 12, 2) == e.topFl && Num(body, at + 14, 1) == e.level
  }

  ghost predicate ArcSpelled(body: Bytes, at: nat, a: MsaArc) {
    Int(body, at, 4) == a.bearing && Int(body, at + 4, 4) == a.altitude && Int(body, at + 8, 4) == a.radius
  }

  ghost predicate SectorSpelled(body: Bytes, at: nat, pool: Bytes, m: MsaSector) {
    && TextRef(body, at, pool, m.center.name) && TextRef(body, at + 8, pool, m.center.region) && TextRef(body, at + 16, pool, m.airport)
    && Num(body, at + 24, 4) == |m.arcs|
    && forall j: nat :: j < |m.arcs| ==> ArcSpelled(body, at + SECTOR_SIZE + ARC_SIZE * j, m.arcs[j])
  }

  ghost predicate HeaderSpelled(body: Bytes, s: GraphSnapshot) {
    && Num(body, 0, 4) == |s.coords| && Num(body, 4, 4) == |s.edges| && Num(body, 8, 4) == |s.airwayNames|
    && Num(body, 12, 4) == |s.msa| && Num(body, 16, 4) == s.firstAirport
  }

  ghost predicate VerticesSpelled(body: Bytes, at: nat, pool: Bytes, s: GraphSnapshot) {
    && |s.idents| == |s.outbound| == |s.inbound| == |s.kinds| == |s.coords|
    && forall i: nat :: i < |s.coords| ==>
         VertexSpelled(body, at + VERTEX_SIZE * i, pool, s.coords[i], s.idents[i], s.outbound[i], s.inbound[i], s.kinds[i])
  }

  ghost predicate WordsSpelled(body: Bytes, at: nat, xs: seq<i32>) {
    forall i: nat :: i < |xs| ==> Int(body, at + 4 * i, 4) == xs[i]
  }

  ghost predicate EdgesSpelled(body: Bytes, at: nat, es: seq<CsrEdge>) {
    forall i: nat :: i < |es| ==> EdgeSpelled(body, at + EDGE_SIZE * i, es[i])
  }

  ghost predicate NamesSpelled(body: Bytes, at: nat, pool: Bytes, names: seq<Bytes>) {
    forall i: nat :: i < |names| ==> TextRef(body, at + 8 * i, pool, names[i])
  }

  ghost predicate CellsSpelled(body: Bytes, at: nat, cells: seq<i16>) {
    forall i: nat :: i < |cells| ==> Int(body, at + 2 * i, 2) == cells[i]
  }

  ghost predicate SectorsSpelled(body: Bytes, at: nat, pool: Bytes, ms: seq<MsaSector>) {
    forall i: nat :: i < |ms| ==> SectorSpelled(body, GroupStart(body, at, SECTOR_SIZE, 24, ARC_SIZE, i), pool, ms[i])
  }

  /** The whole section: header, then vertices, airports, offsets, edges, names, cells and sectors, back to back. */
  ghost predicate GraphSpelled(body: Bytes, pool: Bytes, s: GraphSnapshot) {
    && HeaderSpelled(body, s) && VerticesSpelled(body, VERTICES_AT, pool, s)
    && WordsSpelled(body, AirportsAt(s), s.elevations) && WordsSpelled(body, OffsetsAt(s), s.offsets)
    && EdgesSpelled(body, EdgesAt(s), s.edges) && NamesSpelled(body, NamesAt(s), pool, s.airwayNames)
    && CellsSpelled(body, CellsAt(s), s.cells) && SectorsSpelled(body, SectorsAt(s), pool, s.msa)
  }

  // ---- The records, field by field --------------------------------------------------------------

  lemma VertexFields(body: Bytes, at: nat, row: Row)
    requires RowFits(VERTEX, row) && PieceAt(body, at, Packed(VERTEX, row))
    ensures |row| == 8 && Num(body, at, 8) == row[0] && Num(body, at + 8, 8) == row[1] && Num(body, at + 16, 4) == row[2]
    ensures Num(body, at + 20, 4) == row[3] && Num(body, at + 24, 4) == row[4] && Num(body, at + 28, 4) == row[5]
    ensures Num(body, at + 32, 1) == row[6] && Num(body, at + 33, 1) == row[7]
  {
    hide Packed, SizeOf, Span, PieceAt, Num;
    assert VERTEX[..0] == [] && VERTEX[..1] == [8] && VERTEX[..2] == [8, 8] && VERTEX[..3] == [8, 8, 4];
    assert VERTEX[..4] == [8, 8, 4, 4] && VERTEX[..5] == [8, 8, 4, 4, 4] && VERTEX[..6] == [8, 8, 4, 4, 4, 4];
    assert VERTEX[..7] == [8, 8, 4, 4, 4, 4, 1];
    SizeNone();
    SizeOne(8);
    SizeTwo(8, 8);
    SizeThree(8, 8, 4);
    SizeFour(8, 8, 4, 4);
    SizeFive(8, 8, 4, 4, 4);
    SizeSix(8, 8, 4, 4, 4, 4);
    SizeSeven(8, 8, 4, 4, 4, 4, 1);
    FieldOf(body, at, VERTEX, row, 0, 0);
    FieldOf(body, at, VERTEX, row, 1, 8);
    FieldOf(body, at, VERTEX, row, 2, 16);
    FieldOf(body, at, VERTEX, row, 3, 20);
    FieldOf(body, at, VERTEX, row, 4, 24);
    FieldOf(body, at, VERTEX, row, 5, 28);
    FieldOf(body, at, VERTEX, row, 6, 32);
    FieldOf(body, at, VERTEX, row, 7, 33);
  }

  lemma SizeNone()
    ensures SizeOf([]) == 0
  {
  }

  lemma EdgeFields(body: Bytes, at: nat, row: Row)
    requires RowFits(EDGE, row) && PieceAt(body, at, Packed(EDGE, row))
    ensures |row| == 6 && Num(body, at, 4) == row[0] && Num(body, at + 4, 4) == row[1] && Num(body, at + 8, 2) == row[2]
    ensures Num(body, at + 10, 2) == row[3] && Num(body, at + 12, 2) == row[4] && Num(body, at + 14, 1) == row[5]
  {
    hide Packed, SizeOf, Span, PieceAt, Num;
    assert EDGE[..0] == [] && EDGE[..1] == [4] && EDGE[..2] == [4, 4] && EDGE[..3] == [4, 4, 2];
    assert EDGE[..4] == [4, 4, 2, 2] && EDGE[..5] == [4, 4, 2, 2, 2];
    SizeNone();
    SizeOne(4);
    SizeTwo(4, 4);
    SizeThree(4, 4, 2);
    SizeFour(4, 4, 2, 2);
    SizeFive(4, 4, 2, 2, 2);
    FieldOf(body, at, EDGE, row, 0, 0);
    FieldOf(body, at, EDGE, row, 1, 4);
    FieldOf(body, at, EDGE, row, 2, 8);
    FieldOf(body, at, EDGE, row, 3, 10);
    FieldOf(body, at, EDGE, row, 4, 12);
    FieldOf(body, at, EDGE, row, 5, 14);
  }

  /** Records of four-byte fields only: the k-th starts at four times k. */
  lemma {:induction false} FoursSize(widths: Widths, k: nat)
    requires k <= |widths| && forall i :: 0 <= i < |widths| ==> widths[i] == 4
    ensures SizeOf(widths[..k]) == 4 * k
    decreases k
  {
    if k > 0 {
      FoursSize(widths, k - 1);
      assert widths[..k][..k - 1] == widths[..k - 1];
    }
  }

  lemma FoursField(body: Bytes, at: nat, widths: Widths, row: Row, k: nat)
    requires (forall i :: 0 <= i < |widths| ==> widths[i] == 4) && RowFits(widths, row) && k < |row|
    requires PieceAt(body, at, Packed(widths, row))
    ensures Num(body, at + 4 * k, 4) == row[k]
  {
    hide Packed, SizeOf, Span, PieceAt, Num;
    FoursSize(widths, k);
    FieldOf(body, at, widths, row, k, 4 * k);
  }

  lemma CellField(body: Bytes, at: nat, row: Row)
    requires RowFits(CELL, row) && PieceAt(body, at, Packed(CELL, row))
    ensures |row| == 1 && Num(body, at, 2) == row[0]
  {
    hide Packed, SizeOf, Span, PieceAt, Num;
    SizeNone();
    assert CELL[..0] == [];
    FieldOf(body, at, CELL, row, 0, 0);
  }

  // ---- Signed fields ----------------------------------------------------------------------------

  lemma IntIs(body: Bytes, at: nat)
    ensures Num(body, at, 4) < 0x1_0000_0000 && Int(body, at, 4) == Signed32(Num(body, at, 4))
    ensures Num(body, at, 2) < 0x1_0000 && Int(body, at, 2) == Signed16(Num(body, at, 2))
    ensures Num(body, at, 8) < 0x1_0000_0000_0000_0000 && Num(body, at, 1) < 0x100
  {
    Spans();
    NumFits(body, at, 4);
    NumFits(body, at, 2);
    NumFits(body, at, 8);
    NumFits(body, at, 1);
    hide Num, Span;
    SignedFieldsAreTwosComplement(Num(body, at, 4), 0, 0);
    SignedFieldsAreTwosComplement(Num(body, at, 2), 0, 0);
  }

  lemma NumFits(body: Bytes, at: nat, n: nat)
    ensures Num(body, at, n) < Span(n)
  {
    if at + n <= |body| {
      ValueFits(body[at..at + n]);
    }
  }

  // ---- Tables -----------------------------------------------------------------------------------

  /** Where each table of the section lies. */
  ghost predicate TablesAt(body: Bytes, w: Wire, s: GraphSnapshot)
    requires WireFits(w)
  {
    && PieceAt(body, 0, Packed(HEADER, w.header)) && PieceAt(body, VERTICES_AT, Rows(VERTEX, w.vertices))
    && PieceAt(body, AirportsAt(s), Rows(WORD, w.airports)) && PieceAt(body, OffsetsAt(s), Rows(WORD, w.offsets))
    && PieceAt(body, EdgesAt(s), Rows(EDGE, w.edges)) && PieceAt(body, NamesAt(s), Rows(NAME, w.airways))
    && PieceAt(body, CellsAt(s), Rows(CELL, w.cells)) && PieceAt(body, SectorsAt(s), GroupsBytes(SECTORS, w.sectors))
  }

  /** As many rows as the snapshot has entries. */
  ghost predicate SameCounts(w: Wire, s: GraphSnapshot) {
    && |w.vertices| == |s.coords| && |w.airports| == |s.elevations| && |w.offsets| == |s.offsets| && |w.edges| == |s.edges|
    && |w.airways| == |s.airwayNames| && |w.cells| == |s.cells| && |w.sectors| == |s.msa|
  }

  lemma TablesLie(body: Bytes, w: Wire, s: GraphSnapshot)
    requires Candidate(body, w) && SameCounts(w, s)
    ensures TablesAt(body, w, s)
  {
    hide Packed, Rows, GroupsBytes, SizeOf, Span, PieceAt, GroupFits;
    RecordSizes();
    HeaderSize(w.header);
    RowsSizeOf(VERTEX, w.vertices);
    RowsSizeOf(WORD, w.airports);
    RowsSizeOf(WORD, w.offsets);
    RowsSizeOf(EDGE, w.edges);
    RowsSizeOf(NAME, w.airways);
    RowsSizeOf(CELL, w.cells);
    WholeIsPiece(body);
    var c6 := GroupsBytes(SECTORS, w.sectors);
    var c5 := Rows(CELL, w.cells) + c6;
    var c4 := Rows(NAME, w.airways) + c5;
    var c3 := Rows(EDGE, w.edges) + c4;
    var c2 := Rows(WORD, w.offsets) + c3;
    var c1 := Rows(WORD, w.airports) + c2;
    PiecesJoin(body, 0, Packed(HEADER, w.header), BodyOf(w));
    PiecesJoin(body, VERTICES_AT, Rows(VERTEX, w.vertices), c1);
    PiecesJoin(body, AirportsAt(s), Rows(WORD, w.airports), c2);
    PiecesJoin(body, OffsetsAt(s), Rows(WORD, w.offsets), c3);
    PiecesJoin(body, EdgesAt(s), Rows(EDGE, w.edges), c4);
    PiecesJoin(body, NamesAt(s), Rows(NAME, w.airways), c5);
    PiecesJoin(body, CellsAt(s), Rows(CELL, w.cells), c6);
  }

  lemma WholeIsPiece(body: Bytes)
    ensures PieceAt(body, 0, body)
  {
  }

  lemma CountsAgree(w: Wire, s: GraphSnapshot, pool: Bytes)
    requires WireFits(w) && Denotes(w, s, pool)
    ensures SameCounts(w, s) && |s.idents| == |s.outbound| == |s.inbound| == |s.kinds| == |s.coords|
  {
    hide VertexMeans, EdgeOf, SectorMeans, TextAt, RowFits, GroupFits;
  }

  lemma HeaderIsSpelled(body: Bytes, w: Wire, s: GraphSnapshot)
    requires WireFits(w) && SameCounts(w, s) && PieceAt(body, 0, Packed(HEADER, w.header)) && s.firstAirport == Signed32(w.header[4])
    ensures HeaderSpelled(body, s)
  {
    hide Packed, Rows, GroupsBytes, SizeOf, Span, PieceAt, GroupFits, Num, RowsFit;
    FoursField(body, 0, HEADER, w.header, 0);
    FoursField(body, 0, HEADER, w.header, 1);
    FoursField(body, 0, HEADER, w.header, 2);
    FoursField(body, 0, HEADER, w.header, 3);
    FoursField(body, 0, HEADER, w.header, 4);
  }

  lemma VertexIsSpelled(body: Bytes, at: nat, row: Row, pool: Bytes, p: Position, ident: FixedIdent, outbound: u8, inbound: u8, kind: u8)
    requires RowFits(VERTEX, row) && PieceAt(body, at, Packed(VERTEX, row))
    requires VertexMeans(row, p, ident, outbound, inbound, kind, pool)
    ensures VertexSpelled(body, at, pool, p, ident, outbound, inbound, kind)
  {
    hide Packed, SizeOf, Span, PieceAt, Num, Resolve, TextRef;
    VertexFields(body, at, row);
    IntIs(body, at);
    IntIs(body, at + 8);
    IntIs(body, at + 33);
    TextIsReferred(body, at + 16, pool, ident.name);
    TextIsReferred(body, at + 24, pool, ident.region);
  }

  lemma EdgeIsSpelled(body: Bytes, at: nat, row: Row)
    requires RowFits(EDGE, row) && PieceAt(body, at, Packed(EDGE, row))
    ensures EdgeSpelled(body, at, EdgeOf(row))
  {
    hide Packed, SizeOf, Span, PieceAt, Num, Int, Signed32, Signed16;
    EdgeFields(body, at, row);
    IntIs(body, at);
    IntIs(body, at + 4);
    IntIs(body, at + 8);
    IntIs(body, at + 10);
    IntIs(body, at + 12);
    IntIs(body, at + 14);
  }

  lemma WordIsSpelled(body: Bytes, at: nat, row: Row)
    requires RowFits(WORD, row) && PieceAt(body, at, Packed(WORD, row))
    ensures Int(body, at, 4) == Signed32(Low(row, 0))
  {
    hide Packed, SizeOf, Span, PieceAt, Num, Int, Signed32;
    FoursField(body, at, WORD, row, 0);
    IntIs(body, at);
  }

  lemma NameIsSpelled(body: Bytes, at: nat, row: Row, pool: Bytes, name: Bytes)
    requires RowFits(NAME, row) && PieceAt(body, at, Packed(NAME, row)) && TextAt(pool, row, 0) == Some(name)
    ensures TextRef(body, at, pool, name)
  {
    hide Packed, SizeOf, Span, PieceAt, Num, Resolve, TextRef;
    FoursField(body, at, NAME, row, 0);
    FoursField(body, at, NAME, row, 1);
    TextIsReferred(body, at, pool, name);
  }

  lemma CellIsSpelled(body: Bytes, at: nat, row: Row)
    requires RowFits(CELL, row) && PieceAt(body, at, Packed(CELL, row))
    ensures Int(body, at, 2) == Signed16(Low(row, 0))
  {
    hide Packed, SizeOf, Span, PieceAt, Num, Int, Signed16;
    CellField(body, at, row);
    IntIs(body, at);
  }

  lemma ArcIsSpelled(body: Bytes, at: nat, row: Row)
    requires RowFits(ARC, row) && PieceAt(body, at, Packed(ARC, row))
    ensures ArcSpelled(body, at, ArcOf(row))
  {
    hide Packed, SizeOf, Span, PieceAt, Num, Int, Signed32;
    FoursField(body, at, ARC, row, 0);
    FoursField(body, at, ARC, row, 1);
    FoursField(body, at, ARC, row, 2);
    IntIs(body, at);
    IntIs(body, at + 4);
    IntIs(body, at + 8);
  }

  lemma SectorHeadIsSpelled(body: Bytes, at: nat, row: Row, pool: Bytes, m: MsaSector)
    requires RowFits(SECTOR, row) && PieceAt(body, at, Packed(SECTOR, row))
    requires TextAt(pool, row, 0) == Some(m.center.name) && TextAt(pool, row, 2) == Some(m.center.region)
    requires TextAt(pool, row, 4) == Some(m.airport)
    ensures TextRef(body, at, pool, m.center.name) && TextRef(body, at + 8, pool, m.center.region)
    ensures TextRef(body, at + 16, pool, m.airport)
  {
    hide Packed, SizeOf, Span, PieceAt, Num, Resolve, TextRef;
    FoursField(body, at, SECTOR, row, 0);
    FoursField(body, at, SECTOR, row, 1);
    FoursField(body, at, SECTOR, row, 2);
    FoursField(body, at, SECTOR, row, 3);
    FoursField(body, at, SECTOR, row, 4);
    FoursField(body, at, SECTOR, row, 5);
    TextIsReferred(body, at, pool, m.center.name);
    TextIsReferred(body, at + 8, pool, m.center.region);
    TextIsReferred(body, at + 16, pool, m.airport);
  }

  lemma OneArcIsSpelled(body: Bytes, at: nat, rows: seq<Row>, arcs: seq<MsaArc>, j: nat)
    requires RowsFit(ARC, rows) && PieceAt(body, at, Rows(ARC, rows)) && |arcs| == |rows| && j < |arcs| && arcs[j] == ArcOf(rows[j])
    ensures ArcSpelled(body, at + ARC_SIZE * j, arcs[j])
  {
    RecordSizes();
    hide Packed, Rows, SizeOf, Span, PieceAt, ArcOf, ArcSpelled, RowFits, RowsFit;
    RowOfTable(body, at, ARC, rows, j, ARC_SIZE);
    ArcIsSpelled(body, at + ARC_SIZE * j, rows[j]);
  }

  lemma ArcsAreSpelled(body: Bytes, at: nat, rows: seq<Row>, arcs: seq<MsaArc>)
    requires RowsFit(ARC, rows) && PieceAt(body, at, Rows(ARC, rows))
    requires |arcs| == |rows| && forall i :: 0 <= i < |rows| ==> arcs[i] == ArcOf(rows[i])
    ensures forall j: nat :: j < |arcs| ==> ArcSpelled(body, at + ARC_SIZE * j, arcs[j])
  {
    hide *;
    forall j: nat | j < |arcs|
      ensures ArcSpelled(body, at + ARC_SIZE * j, arcs[j])
    {
      OneArcIsSpelled(body, at, rows, arcs, j);
    }
  }

  lemma SectorIsThere(body: Bytes, start: nat, ws: seq<Group>, i: nat)
    requires GroupsFit(SECTORS, ws) && i < |ws| && PieceAt(body, start, GroupsBytes(SECTORS, ws))
    ensures var at, g := GroupStart(body, start, SECTOR_SIZE, 24, ARC_SIZE, i), ws[i];
            && RowFits(SECTOR, g.head) && RowsFit(ARC, g.rows) && Num(body, at + 24, 4) == |g.rows|
            && PieceAt(body, at, Packed(SECTOR, g.head)) && PieceAt(body, at + SECTOR_SIZE, Rows(ARC, g.rows))
  {
    SectorSizes();
    hide Packed, Rows, GroupsBytes, SizeOf, PieceAt, Num, GroupStart, GroupsFit, RowFits, RowsFit;
    GroupIsThere(body, start, SECTORS, ws, i, SECTOR_SIZE, 24, ARC_SIZE);
  }

  lemma SectorSizes()
    ensures SizeOf(SECTOR) == SECTOR_SIZE && SizeOf(SECTOR[..6]) == 24 && SizeOf(ARC) == ARC_SIZE && CountsInFour(SECTORS)
  {
    hide SizeOf;
    RecordSizes();
    FoursSize(SECTOR, 6);
  }

  lemma SectorSays(g: Group, m: MsaSector, pool: Bytes)
    requires SectorMeans(g, m, pool)
    ensures TextAt(pool, g.head, 0) == Some(m.center.name) && TextAt(pool, g.head, 2) == Some(m.center.region)
    ensures TextAt(pool, g.head, 4) == Some(m.airport)
    ensures |m.arcs| == |g.rows| && forall i :: 0 <= i < |g.rows| ==> m.arcs[i] == ArcOf(g.rows[i])
  {
    hide TextAt, ArcOf;
  }

  lemma SectorIsSpelled(body: Bytes, start: nat, ws: seq<Group>, i: nat, pool: Bytes, m: MsaSector)
    requires GroupsFit(SECTORS, ws) && i < |ws| && PieceAt(body, start, GroupsBytes(SECTORS, ws)) && SectorMeans(ws[i], m, pool)
    ensures SectorSpelled(body, GroupStart(body, start, SECTOR_SIZE, 24, ARC_SIZE, i), pool, m)
  {
    hide *;
    var at := GroupStart(body, start, SECTOR_SIZE, 24, ARC_SIZE, i);
    SectorIsThere(body, start, ws, i);
    SectorSays(ws[i], m, pool);
    SectorHeadIsSpelled(body, at, ws[i].head, pool, m);
    ArcsAreSpelled(body, at + SECTOR_SIZE, ws[i].rows, m.arcs);
    SectorIs(body, at, pool, m);
  }

  lemma SectorIs(body: Bytes, at: nat, pool: Bytes, m: MsaSector)
    requires TextRef(body, at, pool, m.center.name) && TextRef(body, at + 8, pool, m.center.region)
    requires TextRef(body, at + 16, pool, m.airport) && Num(body, at + 24, 4) == |m.arcs|
    requires forall j: nat :: j < |m.arcs| ==> ArcSpelled(body, at + SECTOR_SIZE + ARC_SIZE * j, m.arcs[j])
    ensures SectorSpelled(body, at, pool, m)
  {
    hide TextRef, Num, ArcSpelled;
  }

  lemma VerticesAreSpelled(body: Bytes, at: nat, rows: seq<Row>, pool: Bytes, s: GraphSnapshot)
    requires RowsFit(VERTEX, rows) && PieceAt(body, at, Rows(VERTEX, rows)) && VerticesMean(rows, s, pool)
    ensures VerticesSpelled(body, at, pool, s)
  {
    hide Packed, Rows, SizeOf, Span, PieceAt, RowFits, VertexMeans, VertexSpelled;
    RecordSizes();
    forall i: nat | i < |s.coords|
      ensures VertexSpelled(body, at + VERTEX_SIZE * i, pool, s.coords[i], s.idents[i], s.outbound[i], s.inbound[i], s.kinds[i])
    {
      RowOfTable(body, at, VERTEX, rows, i, VERTEX_SIZE);
      VertexIsSpelled(body, at + VERTEX_SIZE * i, rows[i], pool, s.coords[i], s.idents[i], s.outbound[i], s.inbound[i], s.kinds[i]);
    }
  }

  lemma WordsAreSpelled(body: Bytes, at: nat, rows: seq<Row>, xs: seq<i32>)
    requires RowsFit(WORD, rows) && PieceAt(body, at, Rows(WORD, rows)) && WordsAre(rows, xs)
    ensures WordsSpelled(body, at, xs)
  {
    hide Packed, Rows, SizeOf, Span, PieceAt, RowFits, Int, Signed32, Low;
    RecordSizes();
    forall i: nat | i < |xs|
      ensures Int(body, at + 4 * i, 4) == xs[i]
    {
      RowOfTable(body, at, WORD, rows, i, 4);
      WordIsSpelled(body, at + 4 * i, rows[i]);
    }
  }

  lemma EdgesAreSpelled(body: Bytes, at: nat, rows: seq<Row>, es: seq<CsrEdge>)
    requires RowsFit(EDGE, rows) && PieceAt(body, at, Rows(EDGE, rows)) && EdgesAre(rows, es)
    ensures EdgesSpelled(body, at, es)
  {
    hide Packed, Rows, SizeOf, Span, PieceAt, RowFits, EdgeOf, EdgeSpelled;
    RecordSizes();
    forall i: nat | i < |es|
      ensures EdgeSpelled(body, at + EDGE_SIZE * i, es[i])
    {
      RowOfTable(body, at, EDGE, rows, i, EDGE_SIZE);
      EdgeIsSpelled(body, at + EDGE_SIZE * i, rows[i]);
    }
  }

  lemma NamesAreSpelled(body: Bytes, at: nat, rows: seq<Row>, pool: Bytes, names: seq<Bytes>)
    requires RowsFit(NAME, rows) && PieceAt(body, at, Rows(NAME, rows)) && NamesMean(rows, names, pool)
    ensures NamesSpelled(body, at, pool, names)
  {
    hide Packed, Rows, SizeOf, Span, PieceAt, RowFits, TextAt, TextRef;
    RecordSizes();
    forall i: nat | i < |names|
      ensures TextRef(body, at + 8 * i, pool, names[i])
    {
      RowOfTable(body, at, NAME, rows, i, 8);
      NameIsSpelled(body, at + 8 * i, rows[i], pool, names[i]);
    }
  }

  lemma CellsAreSpelled(body: Bytes, at: nat, rows: seq<Row>, cells: seq<i16>)
    requires RowsFit(CELL, rows) && PieceAt(body, at, Rows(CELL, rows)) && CellsAre(rows, cells)
    ensures CellsSpelled(body, at, cells)
  {
    hide Packed, Rows, SizeOf, Span, PieceAt, RowFits, Int, Signed16, Low;
    RecordSizes();
    forall i: nat | i < |cells|
      ensures Int(body, at + 2 * i, 2) == cells[i]
    {
      RowOfTable(body, at, CELL, rows, i, 2);
      CellIsSpelled(body, at + 2 * i, rows[i]);
    }
  }

  lemma SectorsAreSpelled(body: Bytes, at: nat, ws: seq<Group>, pool: Bytes, ms: seq<MsaSector>)
    requires GroupsFit(SECTORS, ws) && PieceAt(body, at, GroupsBytes(SECTORS, ws)) && SectorsMean(ws, ms, pool)
    ensures SectorsSpelled(body, at, pool, ms)
  {
    hide GroupsBytes, PieceAt, GroupFits, SectorMeans, SectorSpelled, GroupStart;
    forall i: nat | i < |ms|
      ensures SectorSpelled(body, GroupStart(body, at, SECTOR_SIZE, 24, ARC_SIZE, i), pool, ms[i])
    {
      SectorIsSpelled(body, at, ws, i, pool, ms[i]);
    }
  }

  /** Whatever graph a section holds, its bytes spell it, every field in its own place. */
  lemma HeldIsSpelled(body: Bytes, pool: Bytes, s: GraphSnapshot)
    requires Holds(body, pool, s)
    ensures GraphSpelled(body, pool, s)
  {
    hide ValidGraph, Candidate, Denotes, GraphSpelled;
    var w :| Candidate(body, w) && Denotes(w, s, pool);
    WireIsSpelled(body, w, pool, s);
  }

  lemma WireIsSpelled(body: Bytes, w: Wire, pool: Bytes, s: GraphSnapshot)
    requires Candidate(body, w) && Denotes(w, s, pool)
    ensures GraphSpelled(body, pool, s)
  {
    hide Packed, Rows, GroupsBytes, GroupsFit, RowsFit, RowFits, Span, PieceAt, Layout;
    hide VerticesMean, WordsAre, EdgesAre, NamesMean, CellsAre, SectorsMean;
    hide HeaderSpelled, VerticesSpelled, WordsSpelled, EdgesSpelled, NamesSpelled, CellsSpelled, SectorsSpelled;
    CountsAgree(w, s, pool);
    TablesLie(body, w, s);
    HeaderIsSpelled(body, w, s);
    VerticesAreSpelled(body, VERTICES_AT, w.vertices, pool, s);
    WordsAreSpelled(body, AirportsAt(s), w.airports, s.elevations);
    WordsAreSpelled(body, OffsetsAt(s), w.offsets, s.offsets);
    EdgesAreSpelled(body, EdgesAt(s), w.edges, s.edges);
    NamesAreSpelled(body, NamesAt(s), w.airways, pool, s.airwayNames);
    CellsAreSpelled(body, CellsAt(s), w.cells, s.cells);
    SectorsAreSpelled(body, SectorsAt(s), w.sectors, pool, s.msa);
  }
}
