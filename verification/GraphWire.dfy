/** The graph section as tables of packed rows, and reading those tables back from arbitrary bytes. */
module GraphWire {
  import opened Numbers
  import opened ByteIO
  import opened Groups

  const CELL_COUNT := 64800

  const HEADER: Widths := [4, 4, 4, 4, 4]
  const VERTEX: Widths := [8, 8, 4, 4, 4, 4, 1, 1]
  const WORD: Widths := [4]
  const EDGE: Widths := [4, 4, 2, 2, 2, 1]
  const NAME: Widths := [4, 4]
  const CELL: Widths := [2]
  const SECTOR: Widths := [4, 4, 4, 4, 4, 4, 4]
  const ARC: Widths := [4, 4, 4]

  lemma SizeOne(a: nat)
    ensures SizeOf([a]) == a
  {
    assert [a][..0] == [];
  }

  lemma SizeTwo(a: nat, b: nat)
    ensures SizeOf([a, b]) == a + b
  {
    SizeOne(a);
    SizeNext([a], b);
    assert [a] + [b] == [a, b];
  }

  lemma SizeThree(a: nat, b: nat, c: nat)
    ensures SizeOf([a, b, c]) == a + b + c
  {
    SizeTwo(a, b);
    SizeNext([a, b], c);
    assert [a, b] + [c] == [a, b, c];
  }

  lemma SizeFour(a: nat, b: nat, c: nat, d: nat)
    ensures SizeOf([a, b, c, d]) == a + b + c + d
  {
    SizeThree(a, b, c);
    SizeNext([a, b, c], d);
    assert [a, b, c] + [d] == [a, b, c, d];
  }

  lemma SizeFive(a: nat, b: nat, c: nat, d: nat, e: nat)
    ensures SizeOf([a, b, c, d, e]) == a + b + c + d + e
  {
    SizeFour(a, b, c, d);
    SizeNext([a, b, c, d], e);
    assert [a, b, c, d] + [e] == [a, b, c, d, e];
  }

  lemma SizeSix(a: nat, b: nat, c: nat, d: nat, e: nat, f: nat)
    ensures SizeOf([a, b, c, d, e, f]) == a + b + c + d + e + f
  {
    SizeFive(a, b, c, d, e);
    SizeNext([a, b, c, d, e], f);
    assert [a, b, c, d, e] + [f] == [a, b, c, d, e, f];
  }

  lemma SizeSeven(a: nat, b: nat, c: nat, d: nat, e: nat, f: nat, g: nat)
    ensures SizeOf([a, b, c, d, e, f, g]) == a + b + c + d + e + f + g
  {
    SizeSix(a, b, c, d, e, f);
    SizeNext([a, b, c, d, e, f], g);
    assert [a, b, c, d, e, f] + [g] == [a, b, c, d, e, f, g];
  }

  lemma SizeEight(a: nat, b: nat, c: nat, d: nat, e: nat, f: nat, g: nat, h: nat)
    ensures SizeOf([a, b, c, d, e, f, g, h]) == a + b + c + d + e + f + g + h
  {
    SizeSeven(a, b, c, d, e, f, g);
    SizeNext([a, b, c, d, e, f, g], h);
    assert [a, b, c, d, e, f, g] + [h] == [a, b, c, d, e, f, g, h];
  }

  lemma RecordSizes()
    ensures SizeOf(HEADER) == 20 && SizeOf(VERTEX) == 34 && SizeOf(WORD) == 4 && SizeOf(EDGE) == 15
    ensures SizeOf(NAME) == 8 && SizeOf(CELL) == 2 && SizeOf(SECTOR) == 28 && SizeOf(ARC) == 12
  {
    hide SizeOf;
    SizeOne(4);
    SizeOne(2);
    SizeTwo(4, 4);
    SizeThree(4, 4, 4);
    SizeFive(4, 4, 4, 4, 4);
    SizeSix(4, 4, 2, 2, 2, 1);
    SizeSeven(4, 4, 4, 4, 4, 4, 4);
    SizeEight(8, 8, 4, 4, 4, 4, 1, 1);
  }

  // ---- Sectors --------------------------------------------------------------------------------

  /** A sector: its head's last field counts its arcs. */
  const SECTORS := Shape(SECTOR, 6, ARC)

  lemma SectorsShape()
    ensures ShapeOk(SECTORS)
  {
    RecordSizes();
  }

  // ---- The section ----------------------------------------------------------------------------

  datatype Wire = Wire(
    header: Row, vertices: seq<Row>, airports: seq<Row>, offsets: seq<Row>, edges: seq<Row>, airways: seq<Row>,
    cells: seq<Row>, sectors: seq<Group>)

  /** Every field fits its width and every table has the length the header announces. */
  ghost predicate WireFits(w: Wire) {
    && RowFits(HEADER, w.header) && w.header[4] < 0x8000_0000
    && |w.vertices| == w.header[0] && |w.edges| == w.header[1] && |w.airways| == w.header[2]
    && |w.sectors| == w.header[3] && w.header[4] + |w.airports| == w.header[0] && |w.offsets| == w.header[0] + 1
    && |w.cells| == CELL_COUNT
    && RowsFit(VERTEX, w.vertices) && RowsFit(WORD, w.airports) && RowsFit(WORD, w.offsets) && RowsFit(EDGE, w.edges)
    && RowsFit(NAME, w.airways) && RowsFit(CELL, w.cells) && GroupsFit(SECTORS, w.sectors)
  }

  /** The bytes of the section, tables in order. */
  ghost function Layout(w: Wire): Bytes
    requires WireFits(w)
  {
    Packed(HEADER, w.header) + BodyOf(w)
  }

  ghost function BodyOf(w: Wire): Bytes
    requires WireFits(w)
  {
    Rows(VERTEX, w.vertices) + (Rows(WORD, w.airports) + (Rows(WORD, w.offsets) + (Rows(EDGE, w.edges)
      + (Rows(NAME, w.airways) + (Rows(CELL, w.cells) + GroupsBytes(SECTORS, w.sectors))))))
  }

  lemma LayoutSize(w: Wire)
    requires WireFits(w)
    ensures |Layout(w)| == 20 + |w.vertices| * 34 + |w.airports| * 4 + |w.offsets| * 4 + |w.edges| * 15 + |w.airways| * 8
                           + CELL_COUNT * 2 + |GroupsBytes(SECTORS, w.sectors)|
    ensures |GroupsBytes(SECTORS, w.sectors)| >= 28 * |w.sectors|
  {
    hide SizeOf, Packed, Rows, RowFits, GroupFits, GroupBytes, GroupsBytes;
    RecordSizes();
    assert RowFits(HEADER, w.header);
    HeaderSize(w.header);
    RowsSizeOf(VERTEX, w.vertices);
    RowsSizeOf(WORD, w.airports);
    RowsSizeOf(WORD, w.offsets);
    RowsSizeOf(EDGE, w.edges);
    RowsSizeOf(NAME, w.airways);
    RowsSizeOf(CELL, w.cells);
    GroupsSize(SECTORS, w.sectors);
  }

  lemma RowsSizeOf(widths: Widths, rows: seq<Row>)
    requires RowsFit(widths, rows)
    ensures |Rows(widths, rows)| == |rows| * SizeOf(widths)
  {
    RowsSize(widths, rows);
  }

  lemma HeaderSize(header: Row)
    requires RowFits(HEADER, header)
    ensures |Packed(HEADER, header)| == SizeOf(HEADER)
  {
    PackedSize(HEADER, header);
  }

  /** A section's bytes determine its tables. */
  lemma LayoutIsInjective(x: Wire, y: Wire)
    requires WireFits(x) && WireFits(y) && Layout(x) == Layout(y)
    ensures x == y
  {
    hide SizeOf, Packed, Rows, Span, GroupFits, GroupBytes, GroupsBytes, GroupsFit;
    SamePacked(HEADER, x.header, y.header, BodyOf(x), BodyOf(y));
    var x6, y6 := GroupsBytes(SECTORS, x.sectors), GroupsBytes(SECTORS, y.sectors);
    var x5, y5 := Rows(CELL, x.cells) + x6, Rows(CELL, y.cells) + y6;
    var x4, y4 := Rows(NAME, x.airways) + x5, Rows(NAME, y.airways) + y5;
    var x3, y3 := Rows(EDGE, x.edges) + x4, Rows(EDGE, y.edges) + y4;
    var x2, y2 := Rows(WORD, x.offsets) + x3, Rows(WORD, y.offsets) + y3;
    var x1, y1 := Rows(WORD, x.airports) + x2, Rows(WORD, y.airports) + y2;
    SameRows(VERTEX, x.vertices, y.vertices, x1, y1);
    SameRows(WORD, x.airports, y.airports, x2, y2);
    SameRows(WORD, x.offsets, y.offsets, x3, y3);
    SameRows(EDGE, x.edges, y.edges, x4, y4);
    SameRows(NAME, x.airways, y.airways, x5, y5);
    SameRows(CELL, x.cells, y.cells, x6, y6);
    assert x6 + [] == x6 && y6 + [] == y6;
    SameGroups(SECTORS, x.sectors, y.sectors, [], []);
  }

  // ---- Reading --------------------------------------------------------------------------------

  /** Some layout of this wire could be the data. */
  ghost predicate Candidate(data: Bytes, w: Wire) {
    WireFits(w) && Layout(w) == data
  }

  /** The header any candidate must have. */
  lemma CandidateHeader(data: Bytes, w: Wire, header: Row)
    requires Candidate(data, w) && RowFits(HEADER, header) && |data| >= 20 && Packed(HEADER, header) == data[..20]
    ensures w.header == header
  {
    hide SizeOf, Packed, Rows, GroupFits, GroupsBytes, GroupsFit, RowsFit, Span;
    assert data == data[..20] + data[20..];
    SamePacked(HEADER, w.header, header, BodyOf(w), data[20..]);
  }

  /** How many bytes the fixed tables take for given counts, the header left out. */
  function FixedBytes(v: nat, airports: nat, e: nat, names: nat): nat {
    v * 34 + airports * 4 + (v + 1) * 4 + e * 15 + names * 8 + CELL_COUNT * 2
  }

  /** The numbers that hold of data laid out from a wire with this header. */
  ghost predicate Shaped(data: Bytes, x: Wire, header: Row) {
    && |data| >= 20 && |header| == 5 && header[4] < 0x8000_0000 && header[4] <= header[0] && GroupsFit(SECTORS, x.sectors)
    && |data| - 20 == FixedBytes(header[0], header[0] - header[4], header[1], header[2]) + |GroupsBytes(SECTORS, x.sectors)|
    && |GroupsBytes(SECTORS, x.sectors)| >= 28 * header[3]
    && GroupsAt(SECTORS, data, |data| - |GroupsBytes(SECTORS, x.sectors)|, header[3], x.sectors)
  }

  /** Whatever the data really holds passes every size check. */
  lemma CandidateFits(data: Bytes, x: Wire, header: Row)
    requires Candidate(data, x) && x.header == header
    ensures Shaped(data, x, header)
  {
    hide SizeOf, Packed, Rows, Span, GroupFits, GroupBytes, GroupsBytes, GroupsFit;
    LayoutSize(x);
    var front := Packed(HEADER, x.header) + (Rows(VERTEX, x.vertices) + (Rows(WORD, x.airports) + (Rows(WORD, x.offsets)
      + (Rows(EDGE, x.edges) + (Rows(NAME, x.airways) + Rows(CELL, x.cells))))));
    assert data == front + GroupsBytes(SECTORS, x.sectors);
    assert data[|data| - |GroupsBytes(SECTORS, x.sectors)|..] == GroupsBytes(SECTORS, x.sectors);
  }

  /** Everything of a wire but its sectors. */
  ghost predicate TablesFit(w: Wire) {
    && RowFits(HEADER, w.header) && w.header[4] < 0x8000_0000
    && |w.vertices| == w.header[0] && |w.edges| == w.header[1] && |w.airways| == w.header[2]
    && w.header[4] + |w.airports| == w.header[0] && |w.offsets| == w.header[0] + 1 && |w.cells| == CELL_COUNT
    && RowsFit(VERTEX, w.vertices) && RowsFit(WORD, w.airports) && RowsFit(WORD, w.offsets) && RowsFit(EDGE, w.edges)
    && RowsFit(NAME, w.airways) && RowsFit(CELL, w.cells)
  }

  ghost function TableBytes(w: Wire): Bytes
    requires TablesFit(w)
  {
    Packed(HEADER, w.header) + Rows(VERTEX, w.vertices) + Rows(WORD, w.airports) + Rows(WORD, w.offsets)
    + Rows(EDGE, w.edges) + Rows(NAME, w.airways) + Rows(CELL, w.cells)
  }

  lemma LayoutIsTablesThenSectors(w: Wire)
    requires WireFits(w)
    ensures TablesFit(w) && Layout(w) == TableBytes(w) + GroupsBytes(SECTORS, w.sectors)
  {
    hide SizeOf, Packed, Rows, Span, GroupsBytes, GroupsFit;
  }

  lemma HeaderHasFive(header: Row)
    requires RowFits(HEADER, header)
    ensures |header| == 5
  {
  }

  /** The least size of a section with these counts, its header left out. */
  function LeastBytes(header: Row): nat
    requires |header| == 5 && header[4] <= header[0]
  {
    FixedBytes(header[0], header[0] - header[4], header[1], header[2]) + header[3] * 28
  }

  /** Reads the counts and checks them against the bytes there are, before anything is sized by them. */
  method ReadCounts(reader: ByteReader) returns (counts: Option<Row>)
    requires reader.Valid() && reader.pos == 0 && reader.ok
    modifies reader
    ensures reader.Valid()
    ensures counts.Some? ==>
              && RowFits(HEADER, counts.value) && |counts.value| == 5 && reader.ok && reader.pos == 20
              && Packed(HEADER, counts.value) == reader.data[..20]
              && counts.value[4] < 0x8000_0000 && counts.value[4] <= counts.value[0]
              && LeastBytes(counts.value) <= |reader.data| - 20
              && forall x :: Candidate(reader.data, x) ==> Shaped(reader.data, x, counts.value)
    ensures counts.None? ==> forall x :: !Candidate(reader.data, x)
  {
    hide Candidate, Packed, SizeOf, GroupsAt, GroupsFit, GroupsBytes, RowFits;
    RecordSizes();
    ghost var data := reader.data;
    var header := reader.Record(HEADER);
    HeaderHasFive(header);
    forall x | Candidate(data, x)
      ensures reader.ok && Shaped(data, x, header)
    {
      CandidateIsLong(data, x);
      CandidateHeader(data, x, header);
      CandidateFits(data, x, header);
    }
    if !reader.ok || header[4] >= 0x8000_0000 || header[4] > header[0] {
      return None;
    }
    var v, e, names, sectorCount := header[0], header[1], header[2], header[3];
    var airports := v - header[4];
    var available := reader.Remaining();
    if v > available / 34 || airports > available / 4 || e > available / 15 || names > available / 8
       || sectorCount > available / 28 {
      return None;
    }
    var least := v * 34 + airports * 4 + e * 15 + names * 8 + sectorCount * 28 + (v + 1) * 4 + CELL_COUNT * 2;
    if least > available {
      return None;
    }
    counts := Some(header);
  }

  lemma CandidateIsLong(data: Bytes, x: Wire)
    requires Candidate(data, x)
    ensures |data| >= 20
  {
    LayoutSize(x);
  }

  /** One more table read behind what is already read. */
  lemma ReadOn(data: Bytes, front: Bytes, at: nat, end: nat, rows: Bytes)
    requires at <= end <= |data| && front == data[..at] && rows == data[at..end]
    ensures front + rows == data[..end]
  {
  }

  /** Reads the fixed tables behind the header; the counts checked before make this always succeed. */
  method ReadTables(reader: ByteReader, header: Row) returns (w: Wire)
    requires reader.Valid() && reader.ok && reader.pos == 20 && RowFits(HEADER, header) && |header| == 5
    requires Packed(HEADER, header) == reader.data[..20]
    requires header[4] < 0x8000_0000 && header[4] <= header[0] && LeastBytes(header) <= |reader.data| - 20
    modifies reader
    ensures reader.Valid() && reader.ok && w.header == header && TablesFit(w) && TableBytes(w) == reader.data[..reader.pos]
    ensures reader.pos == 20 + FixedBytes(header[0], header[0] - header[4], header[1], header[2])
  {
    hide Packed, Rows, SizeOf, Span, RowFits, RowsFit;
    RecordSizes();
    ghost var data := reader.data;
    var v, airports := header[0], header[0] - header[4];
    var vertices := reader.Table(VERTEX, v);
    ghost var c1 := reader.pos;
    var elevations := reader.Table(WORD, airports);
    ghost var c2 := reader.pos;
    var offsets := reader.Block(4, v + 1);
    ghost var c3 := reader.pos;
    var edges := reader.Table(EDGE, header[1]);
    ghost var c4 := reader.pos;
    var airways := reader.Table(NAME, header[2]);
    ghost var c5 := reader.pos;
    var cells := reader.Block(2, CELL_COUNT);
    ghost var c6 := reader.pos;
    w := Wire(header, vertices, elevations, offsets, edges, airways, cells, []);
    RowsHaveWidth(VERTEX, vertices);
    RowsHaveWidth(WORD, elevations);
    RowsHaveWidth(WORD, offsets);
    RowsHaveWidth(EDGE, edges);
    RowsHaveWidth(NAME, airways);
    RowsHaveWidth(CELL, cells);
    var b0 := Packed(HEADER, header);
    ghost var b1, b2 := b0 + Rows(VERTEX, vertices), b0 + Rows(VERTEX, vertices) + Rows(WORD, elevations);
    ghost var b3 := b2 + Rows(WORD, offsets);
    ghost var b4 := b3 + Rows(EDGE, edges);
    ghost var b5 := b4 + Rows(NAME, airways);
    ReadOn(data, b0, 20, c1, Rows(VERTEX, vertices));
    ReadOn(data, b1, c1, c2, Rows(WORD, elevations));
    ReadOn(data, b2, c2, c3, Rows(WORD, offsets));
    ReadOn(data, b3, c3, c4, Rows(EDGE, edges));
    ReadOn(data, b4, c4, c5, Rows(NAME, airways));
    ReadOn(data, b5, c5, c6, Rows(CELL, cells));
  }

  lemma RowsHaveWidth(widths: Widths, rows: seq<Row>)
    requires RowsFit(widths, rows)
    ensures forall i :: 0 <= i < |rows| ==> |rows[i]| == |widths|
  {
  }

  /** The tables, once read, are the section exactly when the sectors end where the data does. */
  method ReadWire(body: Bytes) returns (w: Option<Wire>)
    ensures w.Some? ==> Candidate(body, w.value)
    ensures w.None? ==> forall x :: !Candidate(body, x)
  {
    hide Candidate, GroupsBytes, GroupsFit, GroupsAt, RowFits, TablesFit, TableBytes, Packed;
    var reader := new ByteReader(body);
    var counts := ReadCounts(reader);
    if counts.None? {
      return None;
    }
    var header := counts.value;
    Reserve(header[0], 34, |body| - 20);
    Reserve(header[0] - header[4], 4, |body| - 20);
    Reserve(header[1], 15, |body| - 20);
    Reserve(header[2], 8, |body| - 20);
    Reserve(header[3], 28, |body| - 20);
    var tables := ReadTables(reader, header);
    ghost var at := reader.pos;
    forall x | Candidate(body, x)
      ensures GroupsAt(SECTORS, body, at, header[3], x.sectors) && at + |GroupsBytes(SECTORS, x.sectors)| == |body|
    {
      assert Shaped(body, x, header);
    }
    SectorsShape();
    var fine, sectors := ReadGroups(reader, SECTORS, header[3]);
    if !fine || !reader.ok {
      return None;
    }
    if reader.Remaining() != 0 {
      return None;
    }
    w := Some(tables.(sectors := sectors));
    WithSectors(body, tables, at, sectors);
  }

  lemma WithSectors(data: Bytes, tables: Wire, at: nat, sectors: seq<Group>)
    requires TablesFit(tables) && at <= |data| && TableBytes(tables) == data[..at]
    requires GroupsFit(SECTORS, sectors) && |sectors| == tables.header[3] && GroupsBytes(SECTORS, sectors) == data[at..|data|]
    ensures Candidate(data, tables.(sectors := sectors))
  {
    hide Packed, Rows, SizeOf, Span, GroupsBytes, GroupsFit;
    var w := tables.(sectors := sectors);
    LayoutIsTablesThenSectors(w);
    assert TableBytes(w) == TableBytes(tables);
    assert data == data[..at] + data[at..|data|];
  }
}
