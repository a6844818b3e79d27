/** The graph section of the cache: encoding a snapshot, and decoding it from arbitrary bytes. */
module GraphCodec {
  import opened Numbers
  import opened ByteIO
  import opened Groups
  import opened GraphWire

  type u8 = x: int | 0 <= x < 0x100
  type u16 = x: int | 0 <= x < 0x1_0000
  type u32 = x: int | 0 <= x < 0x1_0000_0000
  type u64 = x: int | 0 <= x < 0x1_0000_0000_0000_0000
  type i16 = x: int | -0x8000 <= x < 0x8000
  type i32 = x: int | -0x8000_0000 <= x < 0x8000_0000

  const IDENT_CAP := 7
  const REGION_CAP := 3
  const KIND_OTHER := 4
  const KIND_ILS_DME := 5
  const LEVEL_BOTH := 2

  /** Floating-point fields are carried as their raw bit patterns. */
  datatype Position = Position(latitude: u64, longitude: u64)

  datatype Ident = Ident(name: Bytes, region: Bytes)

  /** An ident short enough for the packed form. */
  type FixedIdent = i: Ident | |i.name| <= IDENT_CAP && |i.region| <= REGION_CAP witness Ident([], [])

  datatype CsrEdge = CsrEdge(to: i32, distance: u32, airwayId: u16, baseFl: i16, topFl: i16, level: u8)

  datatype MsaArc = MsaArc(bearing: i32, altitude: i32, radius: i32)

  datatype MsaSector = MsaSector(center: Ident, airport: Bytes, arcs: seq<MsaArc>)

  datatype GraphSnapshot = GraphSnapshot(
    firstAirport: i32, coords: seq<Position>, idents: seq<FixedIdent>, outbound: seq<u8>, inbound: seq<u8>, kinds: seq<u8>,
    elevations: seq<i32>, offsets: seq<i32>, edges: seq<CsrEdge>, airwayNames: seq<Bytes>, cells: seq<i16>,
    msa: seq<MsaSector>)

  /** Kinds a graph vertex may have: every known one but the unrecognised and the ILS DME. */
  predicate IsVertexKind(kind: u8) {
    kind <= KIND_ILS_DME && kind != KIND_OTHER && kind != KIND_ILS_DME
  }

  /** Four kinds of vertex pass: the unrecognised one, the ILS DME and every unknown number are refused. */
  lemma FourVertexKinds(kind: u8)
    ensures IsVertexKind(kind) <==> kind in [0, 1, 2, 3]
  {
  }

  /** The shape every reader of the graph relies on. */
  ghost predicate ValidGraph(s: GraphSnapshot) {
    var v := |s.coords|;
    && 0 <= s.firstAirport <= v && |s.elevations| == v - s.firstAirport && |s.cells| == CELL_COUNT
    && |s.idents| == |s.outbound| == |s.inbound| == |s.kinds| == v
    && ValidOffsets(s.offsets, v, |s.edges|)
    && (forall i :: 0 <= i < |s.edges| ==> ValidEdge(s.edges[i], v, |s.airwayNames|))
    && (forall i :: 0 <= i < v ==> IsVertexKind(s.kinds[i]))
  }

  ghost predicate ValidOffsets(offsets: seq<i32>, v: nat, e: int) {
    && |offsets| == v + 1 && offsets[0] == 0 && offsets[v] == e
    && forall i :: 0 < i < |offsets| ==> offsets[i - 1] <= offsets[i]
  }

  predicate ValidEdge(e: CsrEdge, v: nat, names: nat) {
    0 <= e.to < v && e.airwayId < names && e.level <= LEVEL_BOTH
  }

  /** Rows of edges lie within the edge array, so no lookup can stray. */
  lemma OffsetsStayInRange(offsets: seq<i32>, v: nat, e: int, i: nat, j: nat)
    requires ValidOffsets(offsets, v, e) && i <= j <= v
    ensures 0 <= offsets[i] <= offsets[j] <= e
  {
    RunsUp(offsets, v, e, 0, i);
    RunsUp(offsets, v, e, i, j);
    RunsUp(offsets, v, e, j, v);
  }

  /** No lookup the search makes can stray: a vertex's row holds edges, and each leads to a vertex on a named airway. */
  lemma LookupsStayInRange(s: GraphSnapshot, x: nat, j: int)
    requires ValidGraph(s) && x < |s.coords| && s.offsets[x] <= j < s.offsets[x + 1]
    ensures 0 <= j < |s.edges| && 0 <= s.edges[j].to < |s.coords| && s.edges[j].airwayId < |s.airwayNames|
    ensures s.edges[j].level in [0, 1, 2] && s.kinds[s.edges[j].to] in [0, 1, 2, 3]
    ensures s.edges[j].to >= s.firstAirport ==> 0 <= s.edges[j].to - s.firstAirport < |s.elevations|
  {
    OffsetsStayInRange(s.offsets, |s.coords|, |s.edges|, x, x + 1);
    assert ValidEdge(s.edges[j], |s.coords|, |s.airwayNames|);
    FourVertexKinds(s.kinds[s.edges[j].to]);
  }

  lemma {:induction false} RunsUp(offsets: seq<i32>, v: nat, e: int, i: nat, j: nat)
    requires ValidOffsets(offsets, v, e) && i <= j <= v
    ensures offsets[i] <= offsets[j]
    decreases j - i
  {
    if i < j {
      RunsUp(offsets, v, e, i, j - 1);
    }
  }

  // ---- Rows and what they mean ------------------------------------------------------------------

  function Low(row: Row, k: nat): nat {
    if k < |row| then row[k] else 0
  }

  function Signed32(v: nat): i32 {
    if v < 0x8000_0000 then v else if v < 0x1_0000_0000 then v - 0x1_0000_0000 else 0
  }

  function Signed16(v: nat): i16 {
    if v < 0x8000 then v else if v < 0x1_0000 then v - 0x1_0000 else 0
  }


  function Unsigned32(x: i32): (v: nat)
    ensures v < 0x1_0000_0000 && Signed32(v) == x
  {
    if x >= 0 then x else x + 0x1_0000_0000
  }

  function Unsigned16(x: i16): (v: nat)
    ensures v < 0x1_0000 && Signed16(v) == x
  {
    if x >= 0 then x else x + 0x1_0000
  }

  /** Signed fields are read and written as two's complement of their width. */
  lemma SignedFieldsAreTwosComplement(v: nat, x: i32, y: i16)
    ensures v < 0x1_0000_0000 ==> Signed32(v) == ToSigned(v, 4)
    ensures v < 0x1_0000 ==> Signed16(v) == ToSigned(v, 2)
    ensures Unsigned32(x) == ToUnsigned(x, 4) && Unsigned16(y) == ToUnsigned(y, 2)
  {
    Spans();
    SignedBothWays(x, 0, 4);
    SignedBothWays(y, 0, 2);
    ModOfSmall(x, 0x1_0000_0000);
    ModOfSmall(y, 0x1_0000);
  }

  function Fit8(v: nat): u8 { if v < 0x100 then v else 0 }

  function Fit16(v: nat): u16 { if v < 0x1_0000 then v else 0 }

  function Fit32(v: nat): u32 { if v < 0x1_0000_0000 then v else 0 }

  function Fit64(v: nat): u64 { if v < 0x1_0000_0000_0000_0000 then v else 0 }

  function EdgeOf(row: Row): CsrEdge {
    CsrEdge(Signed32(Low(row, 0)), Fit32(Low(row, 1)), Fit16(Low(row, 2)), Signed16(Low(row, 3)), Signed16(Low(row, 4)),
            Fit8(Low(row, 5)))
  }

  function EdgeRow(e: CsrEdge): Row {
    [Unsigned32(e.to), e.distance, e.airwayId, Unsigned16(e.baseFl), Unsigned16(e.topFl), e.level]
  }

  function ArcOf(row: Row): MsaArc {
    MsaArc(Signed32(Low(row, 0)), Signed32(Low(row, 1)), Signed32(Low(row, 2)))
  }

  function ArcRow(a: MsaArc): Row {
    [Unsigned32(a.bearing), Unsigned32(a.altitude), Unsigned32(a.radius)]
  }

  /** The text a row's reference at field k names. */
  function TextAt(pool: Bytes, row: Row, k: nat): Option<Bytes> {
    Resolve(pool, Low(row, k), Low(row, k + 1))
  }

  /** What a vertex row says: position, ident, direction flags and kind. */
  ghost predicate VertexMeans(row: Row, at: Position, ident: FixedIdent, outbound: u8, inbound: u8, kind: u8, pool: Bytes) {
    && at == Position(Fit64(Low(row, 0)), Fit64(Low(row, 1)))
    && TextAt(pool, row, 2) == Some(ident.name) && TextAt(pool, row, 4) == Some(ident.region)
    && outbound == Low(row, 6) % 2 && inbound == Low(row, 6) / 2 % 2
    && kind == Fit8(Low(row, 7))
  }

  ghost predicate SectorMeans(w: Group, s: MsaSector, pool: Bytes) {
    && TextAt(pool, w.head, 0) == Some(s.center.name) && TextAt(pool, w.head, 2) == Some(s.center.region)
    && TextAt(pool, w.head, 4) == Some(s.airport)
    && |s.arcs| == |w.rows| && forall i :: 0 <= i < |w.rows| ==> s.arcs[i] == ArcOf(w.rows[i])
  }

  ghost predicate VerticesMean(rows: seq<Row>, s: GraphSnapshot, pool: Bytes) {
    && |s.coords| == |s.idents| == |s.outbound| == |s.inbound| == |s.kinds| == |rows|
    && forall i :: 0 <= i < |rows| ==>
         VertexMeans(rows[i], s.coords[i], s.idents[i], s.outbound[i], s.inbound[i], s.kinds[i], pool)
  }

  ghost predicate NamesMean(rows: seq<Row>, names: seq<Bytes>, pool: Bytes) {
    |names| == |rows| && forall i :: 0 <= i < |rows| ==> TextAt(pool, rows[i], 0) == Some(names[i])
  }

  ghost predicate SectorsMean(ws: seq<Group>, ss: seq<MsaSector>, pool: Bytes) {
    |ss| == |ws| && forall i :: 0 <= i < |ws| ==> SectorMeans(ws[i], ss[i], pool)
  }

  ghost predicate WordsAre(rows: seq<Row>, xs: seq<i32>) {
    |xs| == |rows| && forall i :: 0 <= i < |rows| ==> xs[i] == Signed32(Low(rows[i], 0))
  }

  ghost predicate EdgesAre(rows: seq<Row>, edges: seq<CsrEdge>) {
    |edges| == |rows| && forall i :: 0 <= i < |rows| ==> edges[i] == EdgeOf(rows[i])
  }

  ghost predicate CellsAre(rows: seq<Row>, cells: seq<i16>) {
    |cells| == |rows| && forall i :: 0 <= i < |rows| ==> cells[i] == Signed16(Low(rows[i], 0))
  }

  /** The tables of w, read against a pool, say s. */
  ghost predicate Denotes(w: Wire, s: GraphSnapshot, pool: Bytes) {
    && |w.header| == 5 && s.firstAirport == Signed32(w.header[4])
    && VerticesMean(w.vertices, s, pool) && WordsAre(w.airports, s.elevations) && WordsAre(w.offsets, s.offsets)
    && EdgesAre(w.edges, s.edges) && NamesMean(w.airways, s.airwayNames, pool) && CellsAre(w.cells, s.cells)
    && SectorsMean(w.sectors, s.msa, pool)
  }

  /** Tables say at most one thing. */
  lemma DenotesOne(w: Wire, x: GraphSnapshot, y: GraphSnapshot, pool: Bytes)
    requires Denotes(w, x, pool) && Denotes(w, y, pool)
    ensures x == y
  {
    assert x.coords == y.coords && x.idents == y.idents && x.outbound == y.outbound && x.inbound == y.inbound;
    assert x.kinds == y.kinds && x.elevations == y.elevations && x.offsets == y.offsets && x.edges == y.edges;
    assert x.airwayNames == y.airwayNames && x.cells == y.cells;
    forall i | 0 <= i < |x.msa|
      ensures x.msa[i] == y.msa[i]
    {
      assert SectorMeans(w.sectors[i], x.msa[i], pool) && SectorMeans(w.sectors[i], y.msa[i], pool);
      assert x.msa[i].arcs == y.msa[i].arcs;
    }
    assert x.msa == y.msa;
  }

  lemma TextGrows(pool: Bytes, more: Bytes, row: Row, k: nat)
    requires TextAt(pool, row, k).Some? && pool <= more
    ensures TextAt(more, row, k) == TextAt(pool, row, k)
  {
    ResolveGrows(pool, more, Low(row, k), Low(row, k + 1));
  }

  /** What tables say is not changed by text added to the pool later. */
  lemma DenotesGrows(w: Wire, s: GraphSnapshot, pool: Bytes, more: Bytes)
    requires Denotes(w, s, pool) && pool <= more
    ensures Denotes(w, s, more)
  {
    hide Resolve;
    VerticesGrow(w.vertices, s, pool, more);
    NamesGrow(w.airways, s.airwayNames, pool, more);
    SectorsGrow(w.sectors, s.msa, pool, more);
    hide VerticesMean, NamesMean, SectorsMean, WordsAre, EdgesAre, CellsAre;
  }

  lemma VerticesGrow(rows: seq<Row>, s: GraphSnapshot, pool: Bytes, more: Bytes)
    requires VerticesMean(rows, s, pool) && pool <= more
    ensures VerticesMean(rows, s, more)
  {
    hide Resolve, Low, Fit64, Fit8;
    forall i | 0 <= i < |rows|
      ensures VertexMeans(rows[i], s.coords[i], s.idents[i], s.outbound[i], s.inbound[i], s.kinds[i], more)
    {
      assert VertexMeans(rows[i], s.coords[i], s.idents[i], s.outbound[i], s.inbound[i], s.kinds[i], pool);
      TextGrows(pool, more, rows[i], 2);
      TextGrows(pool, more, rows[i], 4);
    }
  }

  lemma NamesGrow(rows: seq<Row>, names: seq<Bytes>, pool: Bytes, more: Bytes)
    requires NamesMean(rows, names, pool) && pool <= more
    ensures NamesMean(rows, names, more)
  {
    hide TextAt;
    forall i | 0 <= i < |rows|
      ensures TextAt(more, rows[i], 0) == Some(names[i])
    {
      TextGrows(pool, more, rows[i], 0);
    }
  }

  lemma SectorsGrow(ws: seq<Group>, ss: seq<MsaSector>, pool: Bytes, more: Bytes)
    requires SectorsMean(ws, ss, pool) && pool <= more
    ensures SectorsMean(ws, ss, more)
  {
    hide TextAt, ArcOf;
    forall i | 0 <= i < |ws|
      ensures SectorMeans(ws[i], ss[i], more)
    {
      assert SectorMeans(ws[i], ss[i], pool);
      TextGrows(pool, more, ws[i].head, 0);
      TextGrows(pool, more, ws[i].head, 2);
      TextGrows(pool, more, ws[i].head, 4);
    }
  }

  // ---- Decoding -------------------------------------------------------------------------------

  /** The bytes hold a valid graph, and it is s. */
  ghost predicate Holds(body: Bytes, pool: Bytes, s: GraphSnapshot) {
    ValidGraph(s) && exists w :: Candidate(body, w) && Denotes(w, s, pool)
  }

  /** No bytes hold two different graphs. */
  lemma HoldsOne(body: Bytes, pool: Bytes, x: GraphSnapshot, y: GraphSnapshot)
    requires Holds(body, pool, x) && Holds(body, pool, y)
    ensures x == y
  {
    hide Denotes, ValidGraph, Candidate;
    var v :| Candidate(body, v) && Denotes(v, x, pool);
    var w :| Candidate(body, w) && Denotes(w, y, pool);
    OneCandidate(body, v, w);
    DenotesOne(v, x, y, pool);
  }

  lemma OneCandidate(body: Bytes, v: Wire, w: Wire)
    requires Candidate(body, v) && Candidate(body, w)
    ensures v == w
  {
    hide WireFits, Layout;
    LayoutIsInjective(v, w);
  }

  method ReadWords(rows: seq<Row>) returns (xs: seq<i32>)
    ensures WordsAre(rows, xs)
  {
    xs := [];
    for i := 0 to |rows|
      invariant |xs| == i && forall k :: 0 <= k < i ==> xs[k] == Signed32(Low(rows[k], 0))
    {
      xs := xs + [Signed32(Low(rows[i], 0))];
    }
  }

  method ReadCells(rows: seq<Row>) returns (xs: seq<i16>)
    ensures CellsAre(rows, xs)
  {
    xs := [];
    for i := 0 to |rows|
      invariant |xs| == i && forall k :: 0 <= k < i ==> xs[k] == Signed16(Low(rows[k], 0))
    {
      xs := xs + [Signed16(Low(rows[i], 0))];
    }
  }

  method ReadEdges(rows: seq<Row>) returns (es: seq<CsrEdge>)
    ensures EdgesAre(rows, es)
  {
    hide EdgeOf;
    es := [];
    for i := 0 to |rows|
      invariant |es| == i && forall k :: 0 <= k < i ==> es[k] == EdgeOf(rows[k])
    {
      es := es + [EdgeOf(rows[i])];
    }
  }

  /** Offsets must run from 0 up to the edge count without stepping back. */
  method CheckOffsets(offsets: seq<i32>, v: nat, e: int) returns (ok: bool)
    requires |offsets| == v + 1
    ensures ok <==> ValidOffsets(offsets, v, e)
  {
    if offsets[0] != 0 || offsets[v] != e {
      return false;
    }
    for i := 0 to v
      invariant forall k :: 0 < k <= i ==> offsets[k - 1] <= offsets[k]
    {
      if offsets[i] > offsets[i + 1] {
        return false;
      }
    }
    ok := true;
  }

  method CheckEdges(edges: seq<CsrEdge>, v: nat, names: nat) returns (ok: bool)
    ensures ok <==> forall i :: 0 <= i < |edges| ==> ValidEdge(edges[i], v, names)
  {
    for i := 0 to |edges|
      invariant forall k :: 0 <= k < i ==> ValidEdge(edges[k], v, names)
    {
      if !ValidEdge(edges[i], v, names) {
        return false;
      }
    }
    ok := true;
  }

  /** Resolves airway names; a bad reference clears the flag. */
  method ReadNames(rows: seq<Row>, pool: Bytes) returns (ok: bool, names: seq<Bytes>)
    ensures ok ==> NamesMean(rows, names, pool)
    ensures !ok ==> forall ns :: !NamesMean(rows, ns, pool)
  {
    hide Low;
    ok, names := true, [];
    for i := 0 to |rows|
      invariant |names| == i
      invariant ok ==> forall k :: 0 <= k < i ==> TextAt(pool, rows[k], 0) == Some(names[k])
      invariant !ok ==> exists k :: 0 <= k < i && TextAt(pool, rows[k], 0).None?
    {
      var name;
      name, ok := ResolveRef(pool, Low(rows[i], 0), Low(rows[i], 1), ok);
      names := names + [name];
    }
  }

  method ReadArcs(rows: seq<Row>) returns (arcs: seq<MsaArc>)
    ensures |arcs| == |rows| && forall i :: 0 <= i < |rows| ==> arcs[i] == ArcOf(rows[i])
  {
    hide ArcOf;
    arcs := [];
    for i := 0 to |rows|
      invariant |arcs| == i && forall k :: 0 <= k < i ==> arcs[k] == ArcOf(rows[k])
    {
      arcs := arcs + [ArcOf(rows[i])];
    }
  }

  method ReadMsa(ws: seq<Group>, pool: Bytes) returns (ok: bool, ss: seq<MsaSector>)
    ensures ok ==> SectorsMean(ws, ss, pool)
    ensures !ok ==> forall xs :: !SectorsMean(ws, xs, pool)
  {
    hide Low, ArcOf, Resolve;
    ok, ss := true, [];
    for i := 0 to |ws|
      invariant |ss| == i
      invariant ok ==> forall k :: 0 <= k < i ==> SectorMeans(ws[k], ss[k], pool)
      invariant !ok ==> exists k :: 0 <= k < i && Unresolved(ws[k], pool)
    {
      var h := ws[i].head;
      ghost var before := ok;
      var name, region, airport;
      name, ok := ResolveRef(pool, Low(h, 0), Low(h, 1), ok);
      region, ok := ResolveRef(pool, Low(h, 2), Low(h, 3), ok);
      airport, ok := ResolveRef(pool, Low(h, 4), Low(h, 5), ok);
      var arcs := ReadArcs(ws[i].rows);
      assert before && !ok ==> Unresolved(ws[i], pool);
      ss := ss + [MsaSector(Ident(name, region), airport, arcs)];
    }
  }

  ghost predicate Unresolved(w: Group, pool: Bytes) {
    TextAt(pool, w.head, 0).None? || TextAt(pool, w.head, 2).None? || TextAt(pool, w.head, 4).None?
  }

  /** A vertex row no packed ident can be made of. */
  ghost predicate NoIdent(row: Row, pool: Bytes) {
    || TextAt(pool, row, 2).None? || TextAt(pool, row, 4).None?
    || |TextAt(pool, row, 2).value| > IDENT_CAP || |TextAt(pool, row, 4).value| > REGION_CAP
  }

  /** Fills the per-vertex arrays; an ident that does not resolve or does not fit ends the decode. */
  method ReadVertices(rows: seq<Row>, pool: Bytes)
    returns (ok: bool, coords: seq<Position>, idents: seq<FixedIdent>, outbound: seq<u8>, inbound: seq<u8>, kinds: seq<u8>)
    ensures ok ==> |coords| == |idents| == |outbound| == |inbound| == |kinds| == |rows|
    ensures ok ==> forall i :: 0 <= i < |rows| ==>
              VertexMeans(rows[i], coords[i], idents[i], outbound[i], inbound[i], kinds[i], pool)
    ensures !ok ==> exists i :: 0 <= i < |rows| && NoIdent(rows[i], pool)
  {
    hide Low, Fit64, Fit8, Resolve;
    ok, coords, idents, outbound, inbound, kinds := true, [], [], [], [], [];
    for i := 0 to |rows|
      invariant |coords| == |idents| == |outbound| == |inbound| == |kinds| == i
      invariant ok ==> forall k :: 0 <= k < i ==>
        VertexMeans(rows[k], coords[k], idents[k], outbound[k], inbound[k], kinds[k], pool)
      invariant !ok ==> exists k :: 0 <= k < i && NoIdent(rows[k], pool)
    {
      var row := rows[i];
      ghost var before := ok;
      var name, region;
      name, ok := ResolveRef(pool, Low(row, 2), Low(row, 3), ok);
      region, ok := ResolveRef(pool, Low(row, 4), Low(row, 5), ok);
      if |name| > IDENT_CAP || |region| > REGION_CAP {
        assert NoIdent(row, pool);
        return false, coords, idents, outbound, inbound, kinds;
      }
      assert before && !ok ==> NoIdent(row, pool);
      coords := coords + [Position(Fit64(Low(row, 0)), Fit64(Low(row, 1)))];
      idents := idents + [Ident(name, region)];
      outbound := outbound + [Low(row, 6) % 2];
      inbound := inbound + [Low(row, 6) / 2 % 2];
      kinds := kinds + [Fit8(Low(row, 7))];
    }
  }

  method CheckKinds(kinds: seq<u8>) returns (ok: bool)
    ensures ok <==> forall i :: 0 <= i < |kinds| ==> IsVertexKind(kinds[i])
  {
    for i := 0 to |kinds|
      invariant forall k :: 0 <= k < i ==> IsVertexKind(kinds[k])
    {
      if !IsVertexKind(kinds[i]) {
        return false;
      }
    }
    ok := true;
  }

  /** Turns tables into the snapshot they say, or nothing when they say no valid graph. */
  method Interpret(w: Wire, pool: Bytes) returns (r: Option<GraphSnapshot>)
    requires WireFits(w)
    ensures r.Some? ==> Denotes(w, r.value, pool) && ValidGraph(r.value)
    ensures r.None? ==> forall s :: Denotes(w, s, pool) ==> !ValidGraph(s)
  {
    hide EdgesAre, WordsAre, CellsAre, NamesMean, SectorsMean, ValidOffsets, ValidEdge, VertexMeans, RowFits, GroupFits, RowsFit, GroupsFit;
    HeaderHasFive(w.header);
    var v, e, names := w.header[0], w.header[1], w.header[2];
    var offsets := ReadWords(w.offsets);
    var elevations := ReadWords(w.airports);
    var edges := ReadEdges(w.edges);
    SizesAre(w, offsets, elevations, edges);
    UniqueNumbers(w, offsets, elevations, edges, pool);
    var offsetsOk := CheckOffsets(offsets, v, e);
    if !offsetsOk {
      return None;
    }
    var edgesOk := CheckEdges(edges, v, names);
    if !edgesOk {
      return None;
    }
    var verticesOk, coords, idents, outbound, inbound, kinds := ReadVertices(w.vertices, pool);
    var cells := ReadCells(w.cells);
    var namesOk, airwayNames := ReadNames(w.airways, pool);
    var msaOk, msa := ReadMsa(w.sectors, pool);
    if !verticesOk {
      NoVertices(w, pool);
      return None;
    }
    var s := GraphSnapshot(Signed32(w.header[4]), coords, idents, outbound, inbound, kinds, elevations, offsets, edges,
                           airwayNames, cells, msa);
    if !namesOk || !msaOk {
      return None;
    }
    assert Denotes(w, s, pool);
    var kindsOk := CheckKinds(kinds);
    CellsSize(w, cells);
    NamesSize(w, airwayNames, pool);
    if !kindsOk {
      forall x | Denotes(w, x, pool)
        ensures x == s
      {
        DenotesOne(w, x, s, pool);
      }
      return None;
    }
    r := Some(s);
  }

  lemma SizesAre(w: Wire, offsets: seq<i32>, elevations: seq<i32>, edges: seq<CsrEdge>)
    requires WireFits(w) && WordsAre(w.offsets, offsets) && WordsAre(w.airports, elevations) && EdgesAre(w.edges, edges)
    ensures |offsets| == w.header[0] + 1 && |elevations| + w.header[4] == w.header[0] && |edges| == w.header[1]
  {
  }

  lemma CellsSize(w: Wire, cells: seq<i16>)
    requires WireFits(w) && CellsAre(w.cells, cells)
    ensures |cells| == CELL_COUNT
  {
  }

  lemma NamesSize(w: Wire, names: seq<Bytes>, pool: Bytes)
    requires WireFits(w) && NamesMean(w.airways, names, pool)
    ensures |names| == w.header[2]
  {
  }

  /** Anything the tables say has these numbers. */
  lemma UniqueNumbers(w: Wire, offsets: seq<i32>, elevations: seq<i32>, edges: seq<CsrEdge>, pool: Bytes)
    requires WireFits(w) && WordsAre(w.offsets, offsets) && WordsAre(w.airports, elevations) && EdgesAre(w.edges, edges)
    ensures forall s :: Denotes(w, s, pool) ==>
              s.offsets == offsets && s.elevations == elevations && s.edges == edges
              && |s.coords| == w.header[0] && |s.airwayNames| == w.header[2]
  {
    forall s | Denotes(w, s, pool)
      ensures s.offsets == offsets && s.elevations == elevations && s.edges == edges
      ensures |s.coords| == w.header[0] && |s.airwayNames| == w.header[2]
    {
    }
  }

  lemma NoVertices(w: Wire, pool: Bytes)
    requires exists i :: 0 <= i < |w.vertices| && NoIdent(w.vertices[i], pool)
    ensures forall s :: !Denotes(w, s, pool)
  {
    var i :| 0 <= i < |w.vertices| && NoIdent(w.vertices[i], pool);
    forall s: GraphSnapshot
      ensures !VerticesMean(w.vertices, s, pool)
    {
      if |s.coords| == |s.idents| == |s.outbound| == |s.inbound| == |s.kinds| == |w.vertices| {
        NoIdentMeansNothing(w.vertices[i], s.coords[i], s.idents[i], s.outbound[i], s.inbound[i], s.kinds[i], pool);
      }
    }
  }

  lemma NoIdentMeansNothing(row: Row, at: Position, ident: FixedIdent, outbound: u8, inbound: u8, kind: u8, pool: Bytes)
    requires NoIdent(row, pool)
    ensures !VertexMeans(row, at, ident, outbound, inbound, kind, pool)
  {
  }

  /** Decodes a graph section: the valid graph the bytes hold, and nothing if they hold none. */
  method Decode(body: Bytes, pool: Bytes) returns (r: Option<GraphSnapshot>)
    ensures Decoded(body, pool, r)
  {
    hide Candidate, Denotes, ValidGraph;
    var w := ReadWire(body);
    if w.None? {
      return None;
    }
    IsWireOf(body, w.value);
    r := Interpret(w.value, pool);
    forall s | Holds(body, pool, s)
      ensures r.Some?
    {
      var x :| Candidate(body, x) && Denotes(x, s, pool);
      OneCandidate(body, x, w.value);
    }
  }

  lemma IsWireOf(body: Bytes, w: Wire)
    requires Candidate(body, w)
    ensures WireFits(w)
  {
  }

  /** What decoding promises on every input. */
  ghost predicate Decoded(body: Bytes, pool: Bytes, r: Option<GraphSnapshot>) {
    && (r.Some? ==> Holds(body, pool, r.value))
    && (r.None? ==> forall s :: !Holds(body, pool, s))
  }
}
