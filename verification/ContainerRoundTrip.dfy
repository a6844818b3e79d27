/** Opening a built cache file gives back what it was built from. */
module ContainerRoundTrips {
  import opened Numbers
  import opened ByteIO
  import opened Pieces
  import opened Groups
  import opened GraphWire
  import opened GraphCodec
  import opened GraphEncoding
  import opened CifpSegments
  import opened CifpCodec
  import opened CifpArchives
  import opened CifpStore
  import opened Fronts
  import opened Containers
  import opened ContainerBuilds

  /** Everything lies where the front says. */
  ghost predicate InPlace(file: Bytes, input: BuildInput, p: Parts) {
    var f, h := FrontOf(input, p), input.header;
    && FrontChecks(file, f) && PieceAt(file, HeaderLength(h), p.pool) && PieceAt(file, GraphAt(h, p), p.graph)
    && PieceAt(file, CifpAt(h, p), p.cifp) && PieceAt(file, DetailAt(h, p), p.detail)
  }

  lemma LaidOutInPlace(file: Bytes, input: BuildInput, p: Parts)
    requires LaidOut(file, input, p)
    ensures InPlace(file, input, p)
  {
    hide *;
    var f, h := FrontOf(input, p), input.header;
    LaidFacts(file, input, p);
    SixPieces(file, FrontBytes(f), LittleEndian(Crc(FrontBytes(f)), 4), p.pool, p.graph, p.cifp, p.detail);
    Checked(file, f);
    PutInPlace(file, input, p);
  }

  lemma PutInPlace(file: Bytes, input: BuildInput, p: Parts)
    requires FrontChecks(file, FrontOf(input, p)) && PieceAt(file, HeaderLength(input.header), p.pool)
    requires PieceAt(file, HeaderLength(input.header) + |p.pool|, p.graph)
    requires PieceAt(file, HeaderLength(input.header) + |p.pool| + |p.graph|, p.cifp)
    requires PieceAt(file, HeaderLength(input.header) + |p.pool| + |p.graph| + |p.cifp|, p.detail)
    ensures InPlace(file, input, p)
  {
    hide FrontChecks, FrontOf, HeaderLength, PieceAt;
  }

  lemma LaidFacts(file: Bytes, input: BuildInput, p: Parts)
    requires LaidOut(file, input, p)
    ensures var f := FrontOf(input, p);
            && FrontFits(f) && |FrontBytes(f)| == FrontLength(f) && FrontLength(f) + 4 == HeaderLength(input.header)
            && file == FrontBytes(f) + (LittleEndian(Crc(FrontBytes(f)), 4) + (p.pool + (p.graph + (p.cifp + p.detail))))
  {
    FrontOfFits(input, p);
    hide FrontOf, FrontBytes, FrontLength, FrontFits, LittleEndian, Crc, HeaderLength;
    FrontSizes(FrontOf(input, p));
  }

  lemma SixPieces(s: Bytes, a: Bytes, b: Bytes, c: Bytes, d: Bytes, e: Bytes, f: Bytes)
    requires s == a + (b + (c + (d + (e + f))))
    ensures PieceAt(s, 0, a) && PieceAt(s, |a|, b) && PieceAt(s, |a| + |b|, c) && PieceAt(s, |a| + |b| + |c|, d)
    ensures PieceAt(s, |a| + |b| + |c| + |d|, e) && PieceAt(s, |a| + |b| + |c| + |d| + |e|, f)
  {
    WholeFile(s);
    hide PieceAt;
    Padded(f);
    SevenPieces(s, a, b, c, d, e, f, []);
  }

  lemma Padded(f: Bytes)
    ensures f + [] == f
  {
  }

  lemma Checked(file: Bytes, f: Front)
    requires FrontFits(f) && PieceAt(file, 0, FrontBytes(f)) && PieceAt(file, FrontLength(f), LittleEndian(Crc(FrontBytes(f)), 4))
    ensures FrontChecks(file, f)
  {
    hide FrontFits, FrontBytes, FrontLength, PieceAt, LittleEndian, Crc;
  }

  lemma WholeFile(file: Bytes)
    ensures PieceAt(file, 0, file)
  {
  }

  /** What a row says of the piece it describes. */
  lemma RowOfPiece(file: Bytes, row: Row, t: nat, crc: nat, at: nat, piece: Bytes)
    requires row == [t, crc, Wrap64(at), Wrap64(|piece|)] && PieceAt(file, at, piece) && |file| <= U64_MAX && at > 0
    ensures Present(row) && InFile(row, |file|) && Body(file, row) == piece
    ensures OffsetOf(row) == at && LengthOf(row) == |piece| && CrcOf(row) == crc
  {
    hide Wrap64;
  }

  /** The table's three rows, each in its slot. */
  lemma ThreeSlots(a: Row, b: Row, c: Row)
    requires TypeOf(a) == GRAPH && TypeOf(b) == CIFP && TypeOf(c) == DETAIL
    ensures EachOnce([a, b, c])
    ensures Slot([a, b, c], GRAPH) == a && Slot([a, b, c], CIFP) == b && Slot([a, b, c], DETAIL) == c
  {
    hide TypeOf;
    assert [a, b, c][..2] == [a, b] && [a, b][..1] == [a] && [a][..0] == [];
    var none := Slot([], CIFP);
    assert Slot([a], CIFP) == [] && Slot([a, b], CIFP) == b;
    assert Slot([a], GRAPH) == a && Slot([a, b], GRAPH) == a;
  }

  lemma Typed(input: BuildInput, p: Parts)
    ensures var h := input.header;
            && TypeOf(GraphRow(h, p)) == GRAPH && TypeOf(CifpRow(h, p, input.cifp.Some?)) == CIFP
            && TypeOf(DetailRow(h, p, input.detail.Some?)) == DETAIL
  {
    hide Crc, Wrap64, GraphAt, CifpAt, DetailAt, Slice, DirectoryPrefixLen;
  }

  lemma AbsentRow(row: Row, t: nat, size: nat)
    requires row == [t, 0, 0, 0]
    ensures !Present(row) && InFile(row, size)
  {
  }

  /** The rows are in the file and point at their pieces. */
  lemma RowsPoint(file: Bytes, input: BuildInput, p: Parts)
    requires InPlace(file, input, p) && |file| <= U64_MAX
    ensures var h := input.header;
            var g, c, d := GraphRow(h, p), CifpRow(h, p, input.cifp.Some?), DetailRow(h, p, input.detail.Some?);
            && InFile(g, |file|) && InFile(c, |file|) && InFile(d, |file|)
            && Present(g) && Body(file, g) == p.graph && CrcOf(g) == Crc(p.graph)
            && (Present(c) <==> input.cifp.Some?) && (Present(d) <==> input.detail.Some?)
            && (input.cifp.Some? ==> OffsetOf(c) == CifpAt(h, p) && LengthOf(c) == |p.cifp|)
            && (input.cifp.Some? ==> CrcOf(c) == Crc(Slice(p.cifp, 0, DirectoryPrefixLen(p.airports))))
            && (input.detail.Some? ==> Body(file, d) == p.detail && CrcOf(d) == Crc(p.detail))
  {
    var h := input.header;
    hide FrontChecks, Crc, Present, InFile, Body, OffsetOf, LengthOf, CrcOf, Slice, Wrap64, PieceAt, DirectoryPrefixLen, FrontOf;
    RowOfPiece(file, GraphRow(h, p), GRAPH, Crc(p.graph), GraphAt(h, p), p.graph);
    if input.cifp.Some? {
      RowOfPiece(file, CifpRow(h, p, true), CIFP, Crc(Slice(p.cifp, 0, DirectoryPrefixLen(p.airports))), CifpAt(h, p), p.cifp);
    } else {
      AbsentRow(CifpRow(h, p, false), CIFP, |file|);
    }
    if input.detail.Some? {
      RowOfPiece(file, DetailRow(h, p, true), DETAIL, Crc(p.detail), DetailAt(h, p), p.detail);
    } else {
      AbsentRow(DetailRow(h, p, false), DETAIL, |file|);
    }
  }

  /** The pool is where the front says, with the checksum it says. */
  lemma PoolIs(file: Bytes, input: BuildInput, p: Parts)
    requires InPlace(file, input, p) && |p.pool| <= U32_MAX && TextsFit(input.header)
    ensures var f := FrontOf(input, p);
            PoolAt(f) + PoolLength(f) <= |file| && PoolOf(file, f) == p.pool && PoolCrc(f) == Crc(p.pool)
  {
    hide FrontChecks, FrontOf, Crc, PoolAt, PoolLength, PoolCrc, HeaderLength, PieceAt, FrontFits;
    FrontOfFits(input, p);
    TailSays(input, p);
    PieceIs(file, HeaderLength(input.header), p.pool, |p.pool|);
  }

  lemma TailSays(input: BuildInput, p: Parts)
    requires |p.pool| <= U32_MAX
    ensures PoolLength(FrontOf(input, p)) == |p.pool| && PoolCrc(FrontOf(input, p)) == Crc(p.pool)
  {
    hide Crc;
  }

  lemma HeaderIs(input: BuildInput, p: Parts)
    ensures HeaderOf(FrontOf(input, p)) == input.header && Low(FrontOf(input, p).head, 0) == SECTION_COUNT
  {
    hide Crc;
  }

  lemma TableIsThree(input: BuildInput, p: Parts)
    ensures var h := input.header;
            FrontOf(input, p).table == [GraphRow(h, p), CifpRow(h, p, input.cifp.Some?), DetailRow(h, p, input.detail.Some?)]
  {
    hide GraphRow, CifpRow, DetailRow;
  }

  /** A built file is framed. */
  lemma BuiltIsFramed(file: Bytes, input: BuildInput, p: Parts)
    requires InPlace(file, input, p) && |file| <= U64_MAX && |p.pool| <= U32_MAX && TextsFit(input.header)
    ensures Framed(file, FrontOf(input, p))
    ensures var f, h := FrontOf(input, p), input.header;
            && Slot(f.table, GRAPH) == GraphRow(h, p) && Slot(f.table, CIFP) == CifpRow(h, p, input.cifp.Some?)
            && Slot(f.table, DETAIL) == DetailRow(h, p, input.detail.Some?)
  {
    var h := input.header;
    hide FrontChecks, FrontOf, Crc, PoolAt, PoolLength, PoolOf, PoolCrc, HeaderLength, EachOnce, Slot, Present, InFile;
    hide GraphRow, CifpRow, DetailRow, Body, TypeOf, Low, OffsetOf, LengthOf, CrcOf, PieceAt, Slice, DirectoryPrefixLen;
    RowsPoint(file, input, p);
    PoolIs(file, input, p);
    HeaderIs(input, p);
    TableIsThree(input, p);
    Typed(input, p);
    ThreeSlots(GraphRow(h, p), CifpRow(h, p, input.cifp.Some?), DetailRow(h, p, input.detail.Some?));
  }

  /** A built file reads. */
  lemma BuiltIsReadable(file: Bytes, input: BuildInput, p: Parts)
    requires LaidOut(file, input, p) && SectionsHold(input, p) && |file| <= U64_MAX
    ensures Framed(file, FrontOf(input, p)) && Readable(file, FrontOf(input, p))
  {
    hide *;
    var f, h := FrontOf(input, p), input.header;
    LaidSizes(file, input, p);
    LaidOutInPlace(file, input, p);
    BuiltIsFramed(file, input, p);
    RowsPoint(file, input, p);
    PoolIs(file, input, p);
    GraphHeld(input, p);
    BodyMatches(file, GraphRow(h, p), p.graph);
    if input.detail.Some? {
      BodyMatches(file, DetailRow(h, p, true), p.detail);
    }
    if input.cifp.Some? {
      BuiltCifpOpens(file, input, p, CifpRow(h, p, true));
    }
    ReadableWhen(file, f, Normal(input.graph));
  }

  lemma LaidSizes(file: Bytes, input: BuildInput, p: Parts)
    requires LaidOut(file, input, p)
    ensures TextsFit(input.header) && |p.pool| <= U32_MAX
    ensures p.detail == if input.detail.Some? then input.detail.value.body else []
  {
    hide FrontOf, FrontBytes, FrontFits, Crc, LittleEndian;
  }

  lemma GraphHeld(input: BuildInput, p: Parts)
    requires SectionsHold(input, p)
    ensures Holds(p.graph, p.pool, Normal(input.graph))
  {
    hide Holds, Normal, Storable, SectionHolds;
  }

  lemma BodyMatches(file: Bytes, row: Row, bs: Bytes)
    requires Body(file, row) == bs && CrcOf(row) == Crc(bs)
    ensures BodyChecks(file, row)
  {
    hide Body, CrcOf, Crc;
  }

  lemma ReadableWhen(file: Bytes, f: Front, s: GraphSnapshot)
    requires BodyChecks(file, Slot(f.table, GRAPH)) && Holds(Body(file, Slot(f.table, GRAPH)), PoolOf(file, f), s)
    requires Present(Slot(f.table, DETAIL)) ==> BodyChecks(file, Slot(f.table, DETAIL))
    requires Present(Slot(f.table, CIFP)) ==> CifpOpens(file, Slot(f.table, CIFP), PoolOf(file, f))
    ensures Readable(file, f)
  {
    hide BodyChecks, Holds, Body, PoolOf, Slot, Present, CifpOpens;
  }

  /** The procedure section of a built file opens, into an archive that stores what was built. */
  lemma BuiltCifp(file: Bytes, input: BuildInput, p: Parts, row: Row, r: Option<CifpArchive>)
    requires InPlace(file, input, p) && SectionsHold(input, p) && input.cifp.Some? && |file| <= U64_MAX
    requires OffsetOf(row) == CifpAt(input.header, p) && LengthOf(row) == |p.cifp|
    requires CrcOf(row) == Crc(Slice(p.cifp, 0, DirectoryPrefixLen(p.airports)))
    requires SectionAnswers(file, OffsetOf(row), LengthOf(row), CrcOf(row), p.pool, r)
    ensures r.Some? && Stores(r.value, input.cifp.value)
  {
    var ps := input.cifp.value;
    PrefixSlice(p.cifp, DirectoryPrefixLen(|ps|));
    hide FrontChecks, FrontOf, Crc, PieceAt, SectionHolds, Storable, SectionAnswers, Stores, Slice, DirectoryPrefixLen, OffsetOf, LengthOf, CrcOf;
    hide Holds, HeaderLength, CifpAt;
    StaysInside(file, CifpAt(input.header, p), p.cifp);
    StoredSectionOpens(file, CifpAt(input.header, p), p.cifp, p.pool, ps, CrcOf(row), r);
  }

  lemma PrefixSlice(bs: Bytes, n: nat)
    ensures n <= |bs| ==> Slice(bs, 0, n) == bs[..n]
  {
  }

  lemma BuiltCifpOpens(file: Bytes, input: BuildInput, p: Parts, row: Row)
    requires InPlace(file, input, p) && SectionsHold(input, p) && input.cifp.Some? && |file| <= U64_MAX
    requires OffsetOf(row) == CifpAt(input.header, p) && LengthOf(row) == |p.cifp|
    requires CrcOf(row) == Crc(Slice(p.cifp, 0, DirectoryPrefixLen(p.airports)))
    ensures CifpOpens(file, row, p.pool)
  {
    hide InPlace, SectionsHold, Crc, Slice, DirectoryPrefixLen, OffsetOf, LengthOf, CrcOf, Opens, Opened, CifpAt, Stores;
    if SectionAnswers(file, OffsetOf(row), LengthOf(row), CrcOf(row), p.pool, None) {
      BuiltCifp(file, input, p, row, None);
    }
  }

  /** Opening a built file, however it is done, gives back the header, the normalised graph, the details and every airport. */
  lemma OpenUndoesBuild(file: Bytes, input: BuildInput, p: Parts, r: OpenResult)
    requires LaidOut(file, input, p) && SectionsHold(input, p) && |file| <= U64_MAX && OpenAnswers(file, r)
    ensures r.Ready? && r.data.header == input.header && r.data.graph == Normal(input.graph)
    ensures r.data.detail == if input.detail.Some? then Some(input.detail.value.body) else None
    ensures input.cifp.None? ==> r.data.cifp.None?
    ensures input.cifp.Some? ==> r.data.cifp.Some? && Indexed(r.data.cifp.value) && Stores(r.data.cifp.value, input.cifp.value)
  {
    hide *;
    BuiltIsReadable(file, input, p);
    BuiltIsReady(file, FrontOf(input, p), r);
    BuiltData(file, input, p, r.data);
  }

  lemma BuiltIsReady(file: Bytes, f: Front, r: OpenResult)
    requires Framed(file, f) && Readable(file, f) && OpenAnswers(file, r)
    ensures r.Ready? && DataIs(file, f, r.data)
  {
    hide Framed, Readable, DataIs, OfOtherVersion;
    NotOther(file, f);
    var g :| Framed(file, g) && Readable(file, g) && DataIs(file, g, r.data);
    SameFront(file, f, g);
  }

  lemma SameFront(file: Bytes, f: Front, g: Front)
    requires Framed(file, f) && Framed(file, g)
    ensures f == g
  {
    hide FrontChecks;
    OneChecked(file, f, g);
  }

  lemma NotOther(file: Bytes, f: Front)
    requires Framed(file, f)
    ensures !OfOtherVersion(file)
  {
    hide FrontChecks, OfOtherVersion;
    FramedIsChecked(file, f);
    OtherIsNoFront(file);
  }

  lemma BuiltData(file: Bytes, input: BuildInput, p: Parts, d: UnifiedData)
    requires LaidOut(file, input, p) && SectionsHold(input, p) && |file| <= U64_MAX && DataIs(file, FrontOf(input, p), d)
    ensures d.header == input.header && d.graph == Normal(input.graph)
    ensures d.detail == if input.detail.Some? then Some(input.detail.value.body) else None
    ensures input.cifp.None? ==> d.cifp.None?
    ensures input.cifp.Some? ==> d.cifp.Some? && Indexed(d.cifp.value) && Stores(d.cifp.value, input.cifp.value)
  {
    hide *;
    LaidSizes(file, input, p);
    LaidOutInPlace(file, input, p);
    BuiltIsFramed(file, input, p);
    RowsPoint(file, input, p);
    PoolIs(file, input, p);
    HeaderIs(input, p);
    GraphHeld(input, p);
    DataFacts(file, FrontOf(input, p), d);
    HoldsOne(p.graph, p.pool, d.graph, Normal(input.graph));
    if input.cifp.Some? {
      CifpFacts(file, CifpRow(input.header, p, true), p.pool, d.cifp);
      BuiltCifp(file, input, p, CifpRow(input.header, p, true), d.cifp);
    } else {
      CifpFacts(file, CifpRow(input.header, p, false), p.pool, d.cifp);
    }
  }

  lemma DataFacts(file: Bytes, f: Front, d: UnifiedData)
    requires DataIs(file, f, d)
    ensures d.header == HeaderOf(f) && Holds(Body(file, Slot(f.table, GRAPH)), PoolOf(file, f), d.graph)
    ensures d.detail == if Present(Slot(f.table, DETAIL)) then Some(Body(file, Slot(f.table, DETAIL))) else None
    ensures CifpIs(file, Slot(f.table, CIFP), PoolOf(file, f), d.cifp)
  {
    hide HeaderOf, Holds, Body, Slot, PoolOf, Present, CifpIs;
  }

  lemma CifpFacts(file: Bytes, row: Row, pool: Bytes, cifp: Option<CifpArchive>)
    requires CifpIs(file, row, pool, cifp)
    ensures Present(row) ==> cifp.Some? && Indexed(cifp.value)
    ensures Present(row) ==> SectionAnswers(file, OffsetOf(row), LengthOf(row), CrcOf(row), pool, cifp)
    ensures !Present(row) ==> cifp.None?
  {
    hide Present, Indexed, SectionAnswers, OffsetOf, LengthOf, CrcOf;
  }
}
