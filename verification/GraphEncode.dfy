/** Writing the graph section, and that decoding undoes it. */
module GraphEncoding {
  import opened Numbers
  import opened ByteIO
  import opened Groups
  import opened GraphWire
  import opened GraphCodec

  const MAX_AIRWAY_NAMES := 0xFFFF

  /** Direction marks are written as single bits. */
  function Flag(x: u8): u8 { if x != 0 then 1 else 0 }

  function Flags(xs: seq<u8>): (out: seq<u8>)
    ensures |out| == |xs| && forall i :: 0 <= i < |xs| ==> out[i] == Flag(xs[i])
  {
    seq(|xs|, i requires 0 <= i < |xs| => Flag(xs[i]))
  }

  /** The snapshot with its direction marks reduced to 0 and 1. */
  function Normal(s: GraphSnapshot): GraphSnapshot {
    s.(outbound := Flags(s.outbound), inbound := Flags(s.inbound))
  }

  /** A count narrowed to a 32-bit signed number. */
  function AsInt32(n: nat): i32 {
    Signed32(n % 0x1_0000_0000)
  }

  ghost predicate RunsFromZero(offsets: seq<i32>, e: int) {
    && offsets != [] && offsets[0] == 0 && offsets[|offsets| - 1] == e
    && forall i :: 0 < i < |offsets| ==> offsets[i - 1] <= offsets[i]
  }

  /** What the encoder accepts. */
  ghost predicate Encodable(s: GraphSnapshot) {
    var v := |s.coords|;
    && |s.airwayNames| <= MAX_AIRWAY_NAMES
    && |s.offsets| == v + 1 && |s.idents| == |s.outbound| == |s.inbound| == |s.kinds| == v
    && 0 <= s.firstAirport <= v && |s.elevations| == v - s.firstAirport
    && (forall i :: 0 <= i < v ==> IsVertexKind(s.kinds[i]))
    && RunsFromZero(s.offsets, AsInt32(|s.edges|))
    && (forall i :: 0 <= i < |s.edges| ==> ValidEdge(s.edges[i], v, |s.airwayNames|))
  }

  /** Every count fits the 32 bits it is written in. */
  ghost predicate InLimits(s: GraphSnapshot) {
    && |s.coords| <= U32_MAX && |s.edges| <= U32_MAX && |s.msa| <= U32_MAX
    && forall i :: 0 <= i < |s.msa| ==> |s.msa[i].arcs| <= U32_MAX
  }

  // ---- Writing the tables ---------------------------------------------------------------------

  ghost predicate VertexWritten(row: Row, s: GraphSnapshot, i: nat, pool: Bytes)
    requires i < |s.coords| == |s.idents| == |s.outbound| == |s.inbound| == |s.kinds|
  {
    VertexMeans(row, s.coords[i], s.idents[i], Flag(s.outbound[i]), Flag(s.inbound[i]), s.kinds[i], pool)
  }

  ghost predicate SameSizes(s: GraphSnapshot) {
    |s.coords| == |s.idents| == |s.outbound| == |s.inbound| == |s.kinds|
  }

  function VertexRow(at: Position, io: nat, il: nat, ro: nat, rl: nat, outbound: u8, inbound: u8, kind: u8): Row {
    [at.latitude, at.longitude, io, il, ro, rl, Flag(outbound) + 2 * Flag(inbound), kind]
  }

  lemma VertexRowMeans(s: GraphSnapshot, i: nat, io: nat, il: nat, ro: nat, rl: nat, pool: Bytes)
    requires SameSizes(s) && i < |s.coords| && io <= U32_MAX && il <= U32_MAX && ro <= U32_MAX && rl <= U32_MAX
    ensures var row := VertexRow(s.coords[i], io, il, ro, rl, s.outbound[i], s.inbound[i], s.kinds[i]);
            && RowFits(VERTEX, row)
            && (Resolve(pool, io, il) == Some(s.idents[i].name) && Resolve(pool, ro, rl) == Some(s.idents[i].region) ==>
                  VertexWritten(row, s, i, pool))
  {
    hide Resolve;
    Spans();
  }

  const VERTEX_FRONT: Widths := [8, 8, 4, 4, 4, 4, 1]

  lemma VertexInTwo(row: Row)
    requires |row| == 8
    ensures Packed(VERTEX, row) == Packed(VERTEX_FRONT, row[..7]) + LittleEndian(row[7], 1)
  {
    hide LittleEndian;
    PackedNext(VERTEX_FRONT, row[..7], 1, row[7]);
    assert VERTEX_FRONT + [1] == VERTEX;
    assert row[..7] + [row[7]] == row;
  }

  lemma WrittenGrows(rows: seq<Row>, s: GraphSnapshot, pool: Bytes, more: Bytes)
    requires SameSizes(s) && |rows| <= |s.coords| && pool <= more
    requires forall k :: 0 <= k < |rows| ==> VertexWritten(rows[k], s, k, pool)
    ensures forall k :: 0 <= k < |rows| ==> VertexWritten(rows[k], s, k, more)
  {
    hide Resolve, Low, Fit64, Fit8;
    forall k | 0 <= k < |rows|
      ensures VertexWritten(rows[k], s, k, more)
    {
      assert VertexWritten(rows[k], s, k, pool);
      TextGrows(pool, more, rows[k], 2);
      TextGrows(pool, more, rows[k], 4);
    }
  }

  method WriteVertices(s: GraphSnapshot, w: ByteWriter, pool: StringPool) returns (ok: bool, ghost rows: seq<Row>)
    requires SameSizes(s) && pool.Valid()
    modifies w, pool
    ensures pool.Valid() && old(pool.blob) <= pool.blob
    ensures ok <==> forall i :: 0 <= i < |s.kinds| ==> IsVertexKind(s.kinds[i])
    ensures ok ==> |rows| == |s.coords| && RowsFit(VERTEX, rows) && w.out == old(w.out) + Rows(VERTEX, rows)
    ensures ok && |pool.blob| <= U32_MAX ==> forall k :: 0 <= k < |rows| ==> VertexWritten(rows[k], s, k, pool.blob)
  {
    hide VertexWritten, VertexRow, Packed, Rows, LittleEndian, Resolve, IsVertexKind, Span;
    rows := [];
    ghost var start := w.out;
    NoRows(VERTEX);
    for i := 0 to |s.coords|
      invariant pool.Valid() && old(pool.blob) <= pool.blob
      invariant |rows| == i && RowsFit(VERTEX, rows) && w.out == start + Rows(VERTEX, rows)
      invariant |pool.blob| <= U32_MAX ==> forall k :: 0 <= k < i ==> VertexWritten(rows[k], s, k, pool.blob)
      invariant forall k :: 0 <= k < i ==> IsVertexKind(s.kinds[k])
    {
      ghost var before := pool.blob;
      var io, il := pool.Add(s.idents[i].name);
      ghost var middle := pool.blob;
      var ro, rl := pool.Add(s.idents[i].region);
      var row := VertexRow(s.coords[i], io, il, ro, rl, s.outbound[i], s.inbound[i], s.kinds[i]);
      VertexRowMeans(s, i, io, il, ro, rl, pool.blob);
      RowHas(VERTEX, row);
      VertexInTwo(row);
      w.Record(VERTEX_FRONT, row[..7]);
      if !IsVertexKind(s.kinds[i]) {
        return false, rows;
      }
      w.Unsigned(row[7], 1);
      if |pool.blob| <= U32_MAX {
        ResolveGrows(middle, pool.blob, io, il);
        WrittenGrows(rows, s, before, pool.blob);
      }
      AddRow(VERTEX, rows, row);
      rows := rows + [row];
    }
    ok := true;
  }

  lemma NoRows(widths: Widths)
    ensures Rows(widths, []) == [] && RowsFit(widths, [])
  {
  }

  lemma RowHas(widths: Widths, row: Row)
    requires RowFits(widths, row)
    ensures |row| == |widths|
  {
  }

  lemma AddRow(widths: Widths, rows: seq<Row>, row: Row)
    requires RowsFit(widths, rows) && RowFits(widths, row)
    ensures RowsFit(widths, rows + [row]) && Rows(widths, rows + [row]) == Rows(widths, rows) + Packed(widths, row)
  {
    hide Packed, Span;
    RowsNext(widths, rows, row);
  }

  lemma WordFits(x: i32)
    ensures RowFits(WORD, [Unsigned32(x)]) && Low([Unsigned32(x)], 0) == Unsigned32(x)
  {
    Spans();
  }

  method WriteWords(xs: seq<i32>, w: ByteWriter) returns (ghost rows: seq<Row>)
    modifies w
    ensures RowsFit(WORD, rows) && w.out == old(w.out) + Rows(WORD, rows) && WordsAre(rows, xs)
  {
    hide Packed, Rows, Signed32, Low, Unsigned32, Span;
    rows := [];
    NoRows(WORD);
    for i := 0 to |xs|
      invariant |rows| == i && RowsFit(WORD, rows) && w.out == old(w.out) + Rows(WORD, rows)
      invariant forall k :: 0 <= k < i ==> xs[k] == Signed32(Low(rows[k], 0))
    {
      WordFits(xs[i]);
      w.Record(WORD, [Unsigned32(xs[i])]);
      AddRow(WORD, rows, [Unsigned32(xs[i])]);
      rows := rows + [[Unsigned32(xs[i])]];
    }
  }

  /** Writes the offsets, stopping where they step back. */
  method WriteOffsets(xs: seq<i32>, e: i32, w: ByteWriter) returns (ok: bool, ghost rows: seq<Row>)
    requires xs != []
    modifies w
    ensures ok <==> RunsFromZero(xs, e)
    ensures ok ==> RowsFit(WORD, rows) && w.out == old(w.out) + Rows(WORD, rows) && WordsAre(rows, xs)
  {
    hide Packed, Rows, Signed32, Low, Unsigned32, Span;
    rows := [];
    if xs[0] != 0 {
      return false, rows;
    }
    NoRows(WORD);
    var prev := 0;
    for i := 0 to |xs|
      invariant |rows| == i && RowsFit(WORD, rows) && w.out == old(w.out) + Rows(WORD, rows)
      invariant forall k :: 0 <= k < i ==> xs[k] == Signed32(Low(rows[k], 0))
      invariant prev == if i == 0 then 0 else xs[i - 1]
      invariant forall k :: 0 < k < i ==> xs[k - 1] <= xs[k]
    {
      if xs[i] < prev {
        return false, rows;
      }
      prev := xs[i];
      WordFits(xs[i]);
      w.Record(WORD, [Unsigned32(xs[i])]);
      AddRow(WORD, rows, [Unsigned32(xs[i])]);
      rows := rows + [[Unsigned32(xs[i])]];
    }
    ok := xs[|xs| - 1] == e;
  }

  lemma EdgeFits(e: CsrEdge)
    ensures RowFits(EDGE, EdgeRow(e)) && EdgeOf(EdgeRow(e)) == e
  {
    Spans();
  }

  method WriteEdges(es: seq<CsrEdge>, v: nat, names: nat, w: ByteWriter) returns (ok: bool, ghost rows: seq<Row>)
    modifies w
    ensures ok <==> forall i :: 0 <= i < |es| ==> ValidEdge(es[i], v, names)
    ensures ok ==> RowsFit(EDGE, rows) && w.out == old(w.out) + Rows(EDGE, rows) && EdgesAre(rows, es)
  {
    hide Packed, Rows, EdgeOf, EdgeRow, ValidEdge, Span;
    rows := [];
    NoRows(EDGE);
    for i := 0 to |es|
      invariant |rows| == i && RowsFit(EDGE, rows) && w.out == old(w.out) + Rows(EDGE, rows)
      invariant forall k :: 0 <= k < i ==> es[k] == EdgeOf(rows[k])
      invariant forall k :: 0 <= k < i ==> ValidEdge(es[k], v, names)
    {
      if !ValidEdge(es[i], v, names) {
        return false, rows;
      }
      EdgeFits(es[i]);
      RowHas(EDGE, EdgeRow(es[i]));
      w.Record(EDGE, EdgeRow(es[i]));
      AddRow(EDGE, rows, EdgeRow(es[i]));
      rows := rows + [EdgeRow(es[i])];
    }
    ok := true;
  }

  lemma NameFits(offset: nat, len: nat, pool: Bytes, name: Bytes)
    requires offset <= U32_MAX && len <= U32_MAX
    ensures RowFits(NAME, [offset, len]) && TextAt(pool, [offset, len], 0) == Resolve(pool, offset, len)
  {
    Spans();
  }

  lemma NamesWrittenGrow(rows: seq<Row>, names: seq<Bytes>, pool: Bytes, more: Bytes)
    requires |rows| <= |names| && pool <= more
    requires forall k :: 0 <= k < |rows| ==> TextAt(pool, rows[k], 0) == Some(names[k])
    ensures forall k :: 0 <= k < |rows| ==> TextAt(more, rows[k], 0) == Some(names[k])
  {
    hide TextAt;
    forall k | 0 <= k < |rows|
      ensures TextAt(more, rows[k], 0) == Some(names[k])
    {
      TextGrows(pool, more, rows[k], 0);
    }
  }

  method WriteNames(names: seq<Bytes>, w: ByteWriter, pool: StringPool) returns (ghost rows: seq<Row>)
    requires pool.Valid()
    modifies w, pool
    ensures pool.Valid() && old(pool.blob) <= pool.blob
    ensures |rows| == |names| && RowsFit(NAME, rows) && w.out == old(w.out) + Rows(NAME, rows)
    ensures |pool.blob| <= U32_MAX ==> NamesMean(rows, names, pool.blob)
  {
    hide Packed, Rows, TextAt, Resolve, Span;
    rows := [];
    ghost var start := w.out;
    NoRows(NAME);
    for i := 0 to |names|
      invariant pool.Valid() && old(pool.blob) <= pool.blob
      invariant |rows| == i && RowsFit(NAME, rows) && w.out == start + Rows(NAME, rows)
      invariant |pool.blob| <= U32_MAX ==> forall k :: 0 <= k < i ==> TextAt(pool.blob, rows[k], 0) == Some(names[k])
    {
      ghost var before := pool.blob;
      var offset, len := pool.Add(names[i]);
      NameFits(offset, len, pool.blob, names[i]);
      w.Record(NAME, [offset, len]);
      if |pool.blob| <= U32_MAX {
        NamesWrittenGrow(rows, names, before, pool.blob);
      }
      AddRow(NAME, rows, [offset, len]);
      rows := rows + [[offset, len]];
    }
  }

  lemma CellFits(x: i16)
    ensures RowFits(CELL, [Unsigned16(x)]) && Low([Unsigned16(x)], 0) == Unsigned16(x)
  {
    Spans();
  }

  method WriteCells(xs: seq<i16>, w: ByteWriter) returns (ghost rows: seq<Row>)
    modifies w
    ensures RowsFit(CELL, rows) && w.out == old(w.out) + Rows(CELL, rows) && CellsAre(rows, xs)
  {
    hide Packed, Rows, Signed16, Low, Unsigned16, Span;
    rows := [];
    NoRows(CELL);
    for i := 0 to |xs|
      invariant |rows| == i && RowsFit(CELL, rows) && w.out == old(w.out) + Rows(CELL, rows)
      invariant forall k :: 0 <= k < i ==> xs[k] == Signed16(Low(rows[k], 0))
    {
      CellFits(xs[i]);
      w.Record(CELL, [Unsigned16(xs[i])]);
      AddRow(CELL, rows, [Unsigned16(xs[i])]);
      rows := rows + [[Unsigned16(xs[i])]];
    }
  }

  lemma ArcFits(a: MsaArc)
    ensures RowFits(ARC, ArcRow(a)) && ArcOf(ArcRow(a)) == a
  {
    Spans();
  }

  method WriteArcs(arcs: seq<MsaArc>, w: ByteWriter) returns (ghost rows: seq<Row>)
    modifies w
    ensures |rows| == |arcs| && RowsFit(ARC, rows) && w.out == old(w.out) + Rows(ARC, rows)
    ensures forall k :: 0 <= k < |arcs| ==> arcs[k] == ArcOf(rows[k])
  {
    hide Packed, Rows, ArcOf, ArcRow, Span;
    rows := [];
    NoRows(ARC);
    for i := 0 to |arcs|
      invariant |rows| == i && RowsFit(ARC, rows) && w.out == old(w.out) + Rows(ARC, rows)
      invariant forall k :: 0 <= k < i ==> arcs[k] == ArcOf(rows[k])
    {
      ArcFits(arcs[i]);
      RowHas(ARC, ArcRow(arcs[i]));
      w.Record(ARC, ArcRow(arcs[i]));
      AddRow(ARC, rows, ArcRow(arcs[i]));
      rows := rows + [ArcRow(arcs[i])];
    }
  }

  lemma HeadMeans(head: Row, s: MsaSector, arcs: seq<Row>, pool: Bytes, a: nat, b: nat, c: nat, d: nat, e: nat, f: nat)
    requires head == [a, b, c, d, e, f, |s.arcs| % 0x1_0000_0000]
    requires a <= U32_MAX && b <= U32_MAX && c <= U32_MAX && d <= U32_MAX && e <= U32_MAX && f <= U32_MAX
    requires RowsFit(ARC, arcs) && |arcs| == |s.arcs| && forall k :: 0 <= k < |arcs| ==> s.arcs[k] == ArcOf(arcs[k])
    ensures RowFits(SECTOR, head) && (|s.arcs| <= U32_MAX ==> GroupFits(SECTORS, Group(head, arcs)))
    ensures (Resolve(pool, a, b) == Some(s.center.name) && Resolve(pool, c, d) == Some(s.center.region)
             && Resolve(pool, e, f) == Some(s.airport)) ==> SectorMeans(Group(head, arcs), s, pool)
  {
    hide Resolve, ArcOf;
    Spans();
  }

  lemma SectorsWrittenGrow(ws: seq<Group>, ss: seq<MsaSector>, pool: Bytes, more: Bytes)
    requires |ws| <= |ss| && pool <= more && forall k :: 0 <= k < |ws| ==> SectorMeans(ws[k], ss[k], pool)
    ensures forall k :: 0 <= k < |ws| ==> SectorMeans(ws[k], ss[k], more)
  {
    SectorsGrow(ws, ss[..|ws|], pool, more);
    hide SectorMeans;
    forall k | 0 <= k < |ws|
      ensures SectorMeans(ws[k], ss[k], more)
    {
      assert ss[..|ws|][k] == ss[k];
    }
  }

  method WriteSector(s: MsaSector, w: ByteWriter, pool: StringPool) returns (ghost x: Group)
    requires pool.Valid()
    modifies w, pool
    ensures pool.Valid() && old(pool.blob) <= pool.blob
    ensures |s.arcs| <= U32_MAX ==> GroupFits(SECTORS, x) && w.out == old(w.out) + GroupBytes(SECTORS, x)
    ensures |pool.blob| <= U32_MAX ==> SectorMeans(x, s, pool.blob)
  {
    hide Packed, Rows, SectorMeans, GroupFits, GroupBytes, Resolve, Span;
    ghost var start := w.out;
    var a, b := pool.Add(s.center.name);
    ghost var b1 := pool.blob;
    var c, d := pool.Add(s.center.region);
    ghost var b2 := pool.blob;
    var e, f := pool.Add(s.airport);
    var head := [a, b, c, d, e, f, |s.arcs| % 0x1_0000_0000];
    w.Record(SECTOR, head);
    ghost var rows := WriteArcs(s.arcs, w);
    HeadMeans(head, s, rows, pool.blob, a, b, c, d, e, f);
    if |pool.blob| <= U32_MAX {
      ResolveGrows(b1, pool.blob, a, b);
      ResolveGrows(b2, pool.blob, c, d);
    }
    x := Group(head, rows);
    if |s.arcs| <= U32_MAX {
      SectorBytesAre(x);
      assert w.out == start + (Packed(SECTOR, head) + Rows(ARC, rows));
    }
  }

  method WriteSectors(ss: seq<MsaSector>, w: ByteWriter, pool: StringPool) returns (ghost ws: seq<Group>)
    requires pool.Valid()
    modifies w, pool
    ensures pool.Valid() && old(pool.blob) <= pool.blob
    ensures (forall i :: 0 <= i < |ss| ==> |ss[i].arcs| <= U32_MAX) ==>
              GroupsFit(SECTORS, ws) && |ws| == |ss| && w.out == old(w.out) + GroupsBytes(SECTORS, ws)
              && (|pool.blob| <= U32_MAX ==> SectorsMean(ws, ss, pool.blob))
  {
    hide SectorMeans, GroupFits, GroupBytes, GroupsBytes;
    ws := [];
    ghost var start := w.out;
    ghost var fine := forall i :: 0 <= i < |ss| ==> |ss[i].arcs| <= U32_MAX;
    NoGroups(SECTORS, [], 0);
    for i := 0 to |ss|
      invariant pool.Valid() && old(pool.blob) <= pool.blob && |ws| == i
      invariant fine ==> GroupsFit(SECTORS, ws) && w.out == start + GroupsBytes(SECTORS, ws)
      invariant |pool.blob| <= U32_MAX ==> forall k :: 0 <= k < i ==> SectorMeans(ws[k], ss[k], pool.blob)
    {
      ghost var before := pool.blob;
      ghost var next := WriteSector(ss[i], w, pool);
      if |pool.blob| <= U32_MAX {
        SectorsWrittenGrow(ws, ss, before, pool.blob);
      }
      if fine {
        GroupsNext(SECTORS, ws, next);
      }
      ws := ws + [next];
    }
  }

  lemma SectorBytesAre(s: Group)
    requires GroupFits(SECTORS, s)
    ensures GroupBytes(SECTORS, s) == Packed(SECTOR, s.head) + Rows(ARC, s.rows)
  {
    hide Packed, Rows;
  }

  // ---- The encoder ----------------------------------------------------------------------------

  function HeaderRow(s: GraphSnapshot): Row {
    [|s.coords| % 0x1_0000_0000, |s.edges| % 0x1_0000_0000, |s.airwayNames| % 0x1_0000_0000, |s.msa| % 0x1_0000_0000,
     Unsigned32(s.firstAirport)]
  }

  lemma HeaderFits(s: GraphSnapshot)
    ensures RowFits(HEADER, HeaderRow(s)) && Signed32(HeaderRow(s)[4]) == s.firstAirport
    ensures s.firstAirport >= 0 ==> HeaderRow(s)[4] == s.firstAirport < 0x8000_0000
  {
    Spans();
  }

  /** Encodes a snapshot the encoder accepts; what is written then holds the snapshot, while every count fits its field. */
  method Encode(s: GraphSnapshot, w: ByteWriter, pool: StringPool) returns (ok: bool)
    requires pool.Valid() && |s.cells| == CELL_COUNT
    modifies w, pool
    ensures pool.Valid() && old(pool.blob) <= pool.blob
    ensures ok <==> Encodable(s)
    ensures ok && InLimits(s) && |pool.blob| <= U32_MAX ==>
              exists body :: w.out == old(w.out) + body && Holds(body, pool.blob, Normal(s))
  {
    hide RowFits, RowsFit, Packed, Rows, GroupsBytes, GroupsFit, VertexWritten, WordsAre, EdgesAre, NamesMean, CellsAre, SectorsMean;
    hide IsVertexKind, ValidEdge, RunsFromZero, Holds, Normal, AsInt32, HeaderRow;
    ghost var start := w.out;
    var v := |s.coords|;
    if |s.airwayNames| > MAX_AIRWAY_NAMES {
      return false;
    }
    if |s.offsets| != v + 1 || |s.idents| != v || |s.outbound| != v || |s.inbound| != v || |s.kinds| != v {
      return false;
    }
    if s.firstAirport < 0 || s.firstAirport > v || |s.elevations| != v - s.firstAirport {
      return false;
    }
    HeaderFits(s);
    RowHas(HEADER, HeaderRow(s));
    w.Record(HEADER, HeaderRow(s));
    var verticesOk; ghost var vertices;
    verticesOk, vertices := WriteVertices(s, w, pool);
    if !verticesOk {
      return false;
    }
    ghost var pool1 := pool.blob;
    ghost var airports := WriteWords(s.elevations, w);
    var offsetsOk; ghost var offsets;
    offsetsOk, offsets := WriteOffsets(s.offsets, AsInt32(|s.edges|), w);
    if !offsetsOk {
      return false;
    }
    var edgesOk; ghost var edges;
    edgesOk, edges := WriteEdges(s.edges, v, |s.airwayNames|, w);
    if !edgesOk {
      return false;
    }
    ghost var airways := WriteNames(s.airwayNames, w, pool);
    ghost var pool2 := pool.blob;
    ghost var cells := WriteCells(s.cells, w);
    ghost var sectors := WriteSectors(s.msa, w, pool);
    ok := true;
    if InLimits(s) && |pool.blob| <= U32_MAX {
      ghost var wire := Wire(HeaderRow(s), vertices, airports, offsets, edges, airways, cells, sectors);
      WrittenMeans(wire, s, pool1, pool2, pool.blob);
      WrittenHolds(wire, s, pool.blob);
      OutIsLayout(wire, start, w.out);
    }
  }

  lemma OutIsLayout(wire: Wire, start: Bytes, out: Bytes)
    requires WireFits(wire)
    requires out == start + Packed(HEADER, wire.header) + Rows(VERTEX, wire.vertices) + Rows(WORD, wire.airports)
                    + Rows(WORD, wire.offsets) + Rows(EDGE, wire.edges) + Rows(NAME, wire.airways) + Rows(CELL, wire.cells)
                    + GroupsBytes(SECTORS, wire.sectors)
    ensures out == start + Layout(wire)
  {
    LayoutIsTablesThenSectors(wire);
    hide Packed, Rows, GroupsBytes, Span, Layout;
    EightParts(start, Packed(HEADER, wire.header), Rows(VERTEX, wire.vertices), Rows(WORD, wire.airports),
               Rows(WORD, wire.offsets), Rows(EDGE, wire.edges), Rows(NAME, wire.airways), Rows(CELL, wire.cells),
               GroupsBytes(SECTORS, wire.sectors));
  }

  lemma Regroup(x: Bytes, y: Bytes, z: Bytes)
    ensures x + y + z == x + (y + z)
  {
  }

  lemma EightParts(x: Bytes, a: Bytes, b: Bytes, c: Bytes, d: Bytes, e: Bytes, f: Bytes, g: Bytes, h: Bytes)
    ensures x + a + b + c + d + e + f + g + h == x + (a + b + c + d + e + f + g + h)
  {
    Regroup(x, a, b);
    Regroup(x, a + b, c);
    Regroup(x, a + b + c, d);
    Regroup(x, a + b + c + d, e);
    Regroup(x, a + b + c + d + e, f);
    Regroup(x, a + b + c + d + e + f, g);
    Regroup(x, a + b + c + d + e + f + g, h);
  }

  /** The tables written for a snapshot are a wire, and say the snapshot. */
  lemma WrittenMeans(w: Wire, s: GraphSnapshot, pool1: Bytes, pool2: Bytes, pool: Bytes)
    requires Encodable(s) && InLimits(s) && |s.cells| == CELL_COUNT && pool1 <= pool2 <= pool
    requires w.header == HeaderRow(s)
    requires |w.vertices| == |s.coords| && RowsFit(VERTEX, w.vertices) && RowsFit(WORD, w.airports) && RowsFit(WORD, w.offsets)
    requires RowsFit(EDGE, w.edges) && RowsFit(NAME, w.airways) && RowsFit(CELL, w.cells) && GroupsFit(SECTORS, w.sectors)
    requires forall k :: 0 <= k < |w.vertices| ==> VertexWritten(w.vertices[k], s, k, pool1)
    requires WordsAre(w.airports, s.elevations) && WordsAre(w.offsets, s.offsets) && EdgesAre(w.edges, s.edges)
    requires NamesMean(w.airways, s.airwayNames, pool2) && CellsAre(w.cells, s.cells) && SectorsMean(w.sectors, s.msa, pool)
    ensures WireFits(w) && Denotes(w, Normal(s), pool)
  {
    hide RowsFit, GroupsFit, VertexMeans, TextAt, SectorMeans, EdgeOf;
    HeaderFits(s);
    assert pool1 <= pool;
    NamesGrow(w.airways, s.airwayNames, pool2, pool);
    WrittenGrows(w.vertices, s, pool1, pool);
    var n := Normal(s);
    assert VerticesMean(w.vertices, n, pool) by {
      forall k | 0 <= k < |w.vertices|
        ensures VertexMeans(w.vertices[k], n.coords[k], n.idents[k], n.outbound[k], n.inbound[k], n.kinds[k], pool)
      {
        assert VertexWritten(w.vertices[k], s, k, pool);
      }
    }
    SmallCounts(s);
  }

  lemma SmallCounts(s: GraphSnapshot)
    requires Encodable(s) && InLimits(s)
    ensures HeaderRow(s)[0] == |s.coords| && HeaderRow(s)[1] == |s.edges| && HeaderRow(s)[2] == |s.airwayNames|
    ensures HeaderRow(s)[3] == |s.msa|
  {
  }

  lemma WrittenHolds(w: Wire, s: GraphSnapshot, pool: Bytes)
    requires Encodable(s) && InLimits(s) && |s.cells| == CELL_COUNT && WireFits(w) && Denotes(w, Normal(s), pool)
    ensures Holds(Layout(w), pool, Normal(s))
  {
    hide Denotes, WireFits, Layout, ValidEdge, IsVertexKind;
    EncodableIsValid(s);
    assert Candidate(Layout(w), w);
  }

  /** What the encoder accepts is a valid graph, once its counts fit. */
  lemma EncodableIsValid(s: GraphSnapshot)
    requires Encodable(s) && |s.edges| <= U32_MAX && |s.cells| == CELL_COUNT
    ensures ValidGraph(Normal(s)) && |s.edges| < 0x8000_0000
  {
    hide ValidEdge, IsVertexKind;
    OffsetsRise(s.offsets, AsInt32(|s.edges|), |s.offsets| - 1);
    assert |s.edges| % 0x1_0000_0000 == |s.edges|;
  }

  lemma {:induction false} OffsetsRise(offsets: seq<i32>, e: int, k: nat)
    requires RunsFromZero(offsets, e) && k < |offsets|
    ensures offsets[k] >= 0
  {
    if k > 0 {
      OffsetsRise(offsets, e, k - 1);
    }
  }

  /** Only counts that fit can be held at all. */
  lemma HeldFits(body: Bytes, pool: Bytes, s: GraphSnapshot)
    requires Holds(body, pool, s)
    ensures InLimits(s)
  {
    hide ValidGraph, Denotes, Candidate;
    var w :| Candidate(body, w) && Denotes(w, s, pool);
    DenotedFits(w, s, pool) by { IsWireOf(body, w); }
  }

  lemma DenotedFits(w: Wire, s: GraphSnapshot, pool: Bytes)
    requires WireFits(w) && Denotes(w, s, pool)
    ensures InLimits(s)
  {
    hide VertexMeans, SectorMeans, GroupFits, TextAt, EdgeOf;
    CountsFit(w);
    forall i | 0 <= i < |s.msa|
      ensures |s.msa[i].arcs| <= U32_MAX
    {
      ArcsFit(w.sectors[i], s.msa[i], pool);
    }
  }

  lemma ArcsFit(w: Group, s: MsaSector, pool: Bytes)
    requires GroupFits(SECTORS, w) && SectorMeans(w, s, pool)
    ensures |s.arcs| <= U32_MAX
  {
    hide TextAt, ArcOf;
    Spans();
  }

  lemma CountsFit(w: Wire)
    requires WireFits(w)
    ensures |w.vertices| <= U32_MAX && |w.edges| <= U32_MAX && |w.sectors| <= U32_MAX
  {
    Spans();
  }

  /** Decoding what was encoded gives the snapshot back, against the pool however much it has grown since. */
  lemma DecodeUndoesEncode(body: Bytes, pool: Bytes, more: Bytes, s: GraphSnapshot, r: Option<GraphSnapshot>)
    requires Holds(body, pool, s) && pool <= more && Decoded(body, more, r)
    ensures r == Some(s)
  {
    hide Denotes, ValidGraph, Candidate;
    var w :| Candidate(body, w) && Denotes(w, s, pool);
    DenotesGrows(w, s, pool, more);
    assert Holds(body, more, s);
    if r.Some? {
      HoldsOne(body, more, s, r.value);
    }
  }
}
