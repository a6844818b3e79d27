/** Building a cache file, and what opening the built file gives back. */
module ContainerBuilds {
  import opened Numbers
  import opened ByteIO
  import opened Pieces
  import opened Groups
  import opened GraphWire
  import opened GraphCodec
  import opened GraphEncoding
  import opened CifpSegments
  import opened CifpCodec
  import opened CifpArchives
  import opened CifpStore
  import opened Fronts
  import opened Containers

  /** What encoding the navaid details interns and writes. */
  datatype Detail = Detail(texts: seq<Bytes>, body: Bytes)

  datatype BuildInput = BuildInput(graph: GraphSnapshot, cifp: Option<Procedures>, detail: Option<Detail>, header: Header)

  /** The encoded pieces of a file. */
  datatype Parts = Parts(pool: Bytes, graph: Bytes, cifp: Bytes, airports: nat, detail: Bytes)

  function AsByte(b: bool): nat { if b then 1 else 0 }

  function Wrap64(n: nat): (v: nat)
    ensures v <= U64_MAX && (n <= U64_MAX ==> v == n)
  {
    n % 0x1_0000_0000_0000_0000
  }

  function HeadOf(h: Header): Row { [SECTION_COUNT, h.cycle] }

  function TailOf(c: Capabilities, pool: Bytes): Row {
    [AsByte(c.airwayDirection), AsByte(c.altitudeBands), AsByte(c.moraGrid), AsByte(c.msaSectors), |pool| % 0x1_0000_0000, Crc(pool)]
  }

  /** Where the graph, the procedures and the details start. */
  function GraphAt(h: Header, p: Parts): nat { HeaderLength(h) + |p.pool| }

  function CifpAt(h: Header, p: Parts): nat { GraphAt(h, p) + |p.graph| }

  function DetailAt(h: Header, p: Parts): nat { CifpAt(h, p) + |p.cifp| }

  function GraphRow(h: Header, p: Parts): Row {
    [GRAPH, Crc(p.graph), Wrap64(GraphAt(h, p)), Wrap64(|p.graph|)]
  }

  function CifpRow(h: Header, p: Parts, has: bool): Row {
    if has then [CIFP, Crc(Slice(p.cifp, 0, DirectoryPrefixLen(p.airports))), Wrap64(CifpAt(h, p)), Wrap64(|p.cifp|)]
    else [CIFP, 0, 0, 0]
  }

  function DetailRow(h: Header, p: Parts, has: bool): Row {
    if has then [DETAIL, Crc(p.detail), Wrap64(DetailAt(h, p)), Wrap64(|p.detail|)] else [DETAIL, 0, 0, 0]
  }

  function FrontOf(input: BuildInput, p: Parts): Front {
    var h := input.header;
    Front(HeadOf(h), h.programVersion, h.sourceLoader, h.dataDir, TailOf(h.capabilities, p.pool),
          [GraphRow(h, p), CifpRow(h, p, input.cifp.Some?), DetailRow(h, p, input.detail.Some?)])
  }

  ghost predicate TextsFit(h: Header) {
    |h.programVersion| <= U32_MAX && |h.sourceLoader| <= U32_MAX && |h.dataDir| <= U32_MAX
  }

  lemma FrontOfFits(input: BuildInput, p: Parts)
    requires TextsFit(input.header)
    ensures FrontFits(FrontOf(input, p)) && PoolAt(FrontOf(input, p)) == HeaderLength(input.header)
  {
    hide Crc, Slice, GraphAt, CifpAt, DetailAt, Wrap64, DirectoryPrefixLen;
    Spans();
  }

  /** The file is its front, the front's checksum, the pool and the sections, one behind the other. */
  ghost predicate LaidOut(file: Bytes, input: BuildInput, p: Parts) {
    && TextsFit(input.header) && |p.pool| <= U32_MAX && FrontFits(FrontOf(input, p))
    && (input.cifp.None? ==> p.cifp == []) && p.detail == (if input.detail.Some? then input.detail.value.body else [])
    && file == (var front := FrontBytes(FrontOf(input, p));
                front + (LittleEndian(Crc(front), 4) + (p.pool + (p.graph + (p.cifp + p.detail)))))
  }

  /** The sections hold what was asked for, against the final pool. */
  ghost predicate SectionsHold(input: BuildInput, p: Parts) {
    && Holds(p.graph, p.pool, Normal(input.graph))
    && (input.cifp.Some? ==> Storable(input.cifp.value) && p.airports == |input.cifp.value| && SectionHolds(p.cifp, p.pool, input.cifp.value))
  }

  /** Every count and length fits the field it is written in. */
  ghost predicate WithinFields(input: BuildInput, bodies: seq<Bytes>) {
    && InLimits(input.graph)
    && (input.cifp.Some? ==> AllValid(input.cifp.value) && |input.cifp.value| <= U32_MAX && Sized(bodies))
  }

  // ---- Building -----------------------------------------------------------------------------------------

  lemma HeldGrows(body: Bytes, pool: Bytes, more: Bytes, s: GraphSnapshot)
    requires Holds(body, pool, s) && pool <= more
    ensures Holds(body, more, s)
  {
    hide Denotes, ValidGraph, Candidate;
    var w :| Candidate(body, w) && Denotes(w, s, pool);
    DenotesGrows(w, s, pool, more);
  }

  lemma SectionHeldGrows(section: Bytes, pool: Bytes, more: Bytes, ps: Procedures)
    requires SectionHolds(section, pool, ps) && pool <= more
    ensures SectionHolds(section, more, ps)
  {
    hide BodiesHold, DirectoryLists, Prefix, Joined, Span, Resolve;
    var rows: seq<Row>, refs: seq<(nat, nat)>, bodies: seq<Bytes> :| SectionIs(section, pool, ps, rows, refs, bodies);
    BodiesGrow(bodies, ps, pool, more);
    forall i | 0 <= i < |refs|
      ensures Resolve(more, refs[i].0, refs[i].1) == Some(ps[i].0)
    {
      ResolveGrows(pool, more, refs[i].0, refs[i].1);
    }
    assert SectionIs(section, more, ps, rows, refs, bodies);
  }

  /** Interns the texts the details refer to. */
  method InternAll(texts: seq<Bytes>, pool: StringPool)
    requires pool.Valid()
    modifies pool
    ensures pool.Valid() && old(pool.blob) <= pool.blob
  {
    for i := 0 to |texts|
      invariant pool.Valid() && old(pool.blob) <= pool.blob
    {
      var offset, len := pool.Add(texts[i]);
    }
  }

  /** Encodes the sections into one shared pool. */
  method EncodeParts(input: BuildInput) returns (parts: Option<Parts>, ghost bodies: seq<Bytes>)
    requires |input.graph.cells| == CELL_COUNT
    ensures parts.Some? <==> Encodable(input.graph) && (input.cifp.Some? ==> Storable(input.cifp.value))
    ensures parts.Some? ==> (input.cifp.None? ==> parts.value.cifp == [])
    ensures parts.Some? ==> parts.value.detail == (if input.detail.Some? then input.detail.value.body else [])
    ensures parts.Some? && |parts.value.pool| <= U32_MAX && WithinFields(input, bodies) ==> SectionsHold(input, parts.value)
  {
    hide Encodable, Storable, Holds, SectionHolds, InLimits, AllValid, Sized, Normal;
    bodies := [];
    var pool := new StringPool();
    var gw := new ByteWriter();
    var graphOk := GraphEncoding.Encode(input.graph, gw, pool);
    if !graphOk {
      return None, bodies;
    }
    ghost var pool1 := pool.blob;
    var cw := new ByteWriter();
    var airports := 0;
    if input.cifp.Some? {
      ghost var section;
      var count;
      count, section, bodies := EncodeSection(input.cifp.value, cw, pool);
      if count.None? {
        return None, bodies;
      }
      airports := count.value;
      assert [] + section == section;
    }
    ghost var pool2 := pool.blob;
    if input.detail.Some? {
      InternAll(input.detail.value.texts, pool);
    }
    var p := Parts(pool.blob, gw.out, cw.out, airports, if input.detail.Some? then input.detail.value.body else []);
    parts := Some(p);
    if |p.pool| <= U32_MAX && WithinFields(input, bodies) {
      ghost var body :| gw.out == [] + body && Holds(body, pool1, Normal(input.graph));
      assert [] + body == body;
      HeldGrows(gw.out, pool1, p.pool, Normal(input.graph));
      if input.cifp.Some? {
        SectionHeldGrows(cw.out, pool2, p.pool, input.cifp.value);
      }
    }
  }

  /** Writes the header: everything before the section table. */
  method WriteHeader(h: Header, pool: Bytes) returns (out: Option<Bytes>)
    ensures out.Some? <==> TextsFit(h)
    ensures out.Some? ==>
              out.value == Signature() + Packed(HEAD, HeadOf(h)) + TextBytes(h.programVersion) + TextBytes(h.sourceLoader)
                           + TextBytes(h.dataDir) + Packed(TAIL, TailOf(h.capabilities, pool))
  {
    hide Packed, LittleEndian, Crc, HeadOf, TailOf;
    RowWidths(h, pool);
    var w := new ByteWriter();
    w.Raw(MAGIC);
    w.Unsigned(FORMAT_VERSION, 4);
    w.Record(HEAD, HeadOf(h));
    ghost var before := w.out;
    assert before == Signature() + Packed(HEAD, HeadOf(h));
    w.Text(h.programVersion);
    w.Text(h.sourceLoader);
    w.Text(h.dataDir);
    if TextsFit(h) {
      TextsWritten(before, h);
    }
    w.Record(TAIL, TailOf(h.capabilities, pool));
    if !w.ok {
      return None;
    }
    out := Some(w.out);
  }

  lemma RowWidths(h: Header, pool: Bytes)
    ensures |HeadOf(h)| == |HEAD| && |TailOf(h.capabilities, pool)| == |TAIL|
  {
    hide Crc;
  }

  lemma TextsWritten(before: Bytes, h: Header)
    ensures before + LittleEndian(|h.programVersion|, 4) + h.programVersion + LittleEndian(|h.sourceLoader|, 4) + h.sourceLoader
            + LittleEndian(|h.dataDir|, 4) + h.dataDir
         == before + TextBytes(h.programVersion) + TextBytes(h.sourceLoader) + TextBytes(h.dataDir)
  {
    hide LittleEndian;
    Associative(before, LittleEndian(|h.programVersion|, 4), h.programVersion);
    Associative(before + TextBytes(h.programVersion), LittleEndian(|h.sourceLoader|, 4), h.sourceLoader);
    Associative(before + TextBytes(h.programVersion) + TextBytes(h.sourceLoader), LittleEndian(|h.dataDir|, 4), h.dataDir);
  }

  lemma Associative(a: Bytes, b: Bytes, c: Bytes)
    ensures a + b + c == a + (b + c)
  {
  }

  lemma HeaderThenTable(f: Front, header: Bytes)
    requires FrontFits(f)
    requires header == Signature() + HeadBytes(f) + TextBytes(f.version) + TextBytes(f.loader) + TextBytes(f.dir) + TailBytes(f)
    ensures header + SectionTable(f) == FrontBytes(f)
  {
    hide Signature, HeadBytes, TextBytes, TailBytes, SectionTable, FrontFits;
    SevenInARow(Signature(), HeadBytes(f), TextBytes(f.version), TextBytes(f.loader), TextBytes(f.dir), TailBytes(f), SectionTable(f));
  }

  lemma SevenInARow(a: Bytes, b: Bytes, c: Bytes, d: Bytes, e: Bytes, f: Bytes, g: Bytes)
    ensures a + b + c + d + e + f + g == a + (b + (c + (d + (e + (f + g)))))
  {
    Associative(a + b + c + d + e, f, g);
    Associative(a + b + c + d, e, f + g);
    Associative(a + b + c, d, e + (f + g));
    Associative(a + b, c, d + (e + (f + g)));
    Associative(a, b, c + (d + (e + (f + g))));
  }

  /** Builds the file, unless a section is refused, or the pool or a provenance text is too long to be addressed. */
  method Build(input: BuildInput) returns (file: Option<Bytes>, ghost parts: Option<Parts>, ghost bodies: seq<Bytes>)
    requires |input.graph.cells| == CELL_COUNT
    ensures parts.Some? <==> Encodable(input.graph) && (input.cifp.Some? ==> Storable(input.cifp.value))
    ensures file.Some? <==> parts.Some? && |parts.value.pool| <= U32_MAX && TextsFit(input.header)
    ensures file.Some? ==> Encodable(input.graph) && (input.cifp.Some? ==> Storable(input.cifp.value)) && TextsFit(input.header)
    ensures file.Some? ==> LaidOut(file.value, input, parts.value)
    ensures file.Some? && WithinFields(input, bodies) ==> SectionsHold(input, parts.value)
  {
    hide Encodable, Storable, SectionsHold, WithinFields, Signature, TextBytes, Packed, Rows, Crc, LittleEndian;
    var encoded;
    encoded, bodies := EncodeParts(input);
    parts := encoded;
    if encoded.None? {
      return None, parts, bodies;
    }
    var p := encoded.value;
    if |p.pool| > U32_MAX {
      return None, parts, bodies;
    }
    var header := WriteHeader(input.header, p.pool);
    if header.None? {
      return None, parts, bodies;
    }
    FrontOfFits(input, p);
    var f := FrontOf(input, p);
    HeaderThenTable(f, header.value);
    var table := WriteTable(f.table);
    var front := header.value + table;
    var sum := new ByteWriter();
    sum.Unsigned(Crc(front), 4);
    assert [] + LittleEndian(Crc(front), 4) == LittleEndian(Crc(front), 4);
    file := Some(front + (sum.out + (p.pool + (p.graph + (p.cifp + p.detail)))));
  }

  method WriteTable(table: seq<Row>) returns (out: Bytes)
    requires RowsFit(TABLE_ROW, table)
    ensures out == Rows(TABLE_ROW, table)
  {
    hide Packed, Rows, Span;
    NoRows(TABLE_ROW);
    var w := new ByteWriter();
    assert table[..0] == [];
    for i := 0 to |table|
      invariant w.out == Rows(TABLE_ROW, table[..i])
    {
      w.Record(TABLE_ROW, table[i]);
      AddRow(TABLE_ROW, table[..i], table[i]);
      assert table[..i] + [table[i]] == table[..i + 1];
    }
    assert table[..|table|] == table;
    out := w.out;
  }
}
