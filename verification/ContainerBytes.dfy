/** The cache file byte by byte: where the header, the section table, the pool and the airport directory lie. */
module ContainerBytes {
  import opened Numbers
  import opened ByteIO
  import opened Pieces
  import opened WireFields
  import opened GraphWire
  import opened GraphCodec
  import opened GraphBytes
  import opened CifpSegments
  import opened CifpArchives
  import opened CifpStore
  import opened Fronts
  import opened Containers

  // ---- What the bytes spell ---------------------------------------------------------------------

  /** A text written in place: its length, then its bytes. */
  ghost predicate InlineText(file: Bytes, at: nat, s: Bytes) {
    Num(file, at, 4) == |s| && PieceAt(file, at + 4, s)
  }

  /** Where the capability flags lie, behind the three texts. */
  function FlagsAt(h: Header): nat {
    28 + |h.programVersion| + |h.sourceLoader| + |h.dataDir|
  }

  /** Magic "BFDB", version 21, three sections, cycle, the three texts, four flags. */
  ghost predicate HeaderSpelled(file: Bytes, h: Header) {
    && |file| >= 4 && file[0] == 0x42 && file[1] == 0x46 && file[2] == 0x44 && file[3] == 0x42
    && Num(file, 4, 4) == 21 && Num(file, 8, 4) == 3 && Num(file, 12, 4) == h.cycle
    && InlineText(file, 16, h.programVersion) && InlineText(file, 20 + |h.programVersion|, h.sourceLoader)
    && InlineText(file, 24 + |h.programVersion| + |h.sourceLoader|, h.dataDir)
    && (h.capabilities.airwayDirection <==> Num(file, FlagsAt(h), 1) != 0)
    && (h.capabilities.altitudeBands <==> Num(file, FlagsAt(h) + 1, 1) != 0)
    && (h.capabilities.moraGrid <==> Num(file, FlagsAt(h) + 2, 1) != 0)
    && (h.capabilities.msaSectors <==> Num(file, FlagsAt(h) + 3, 1) != 0)
  }

  /** The pool lies behind the table and the header's checksum. */
  ghost function PoolBytes(file: Bytes, h: Header): Bytes {
    Slice(file, FlagsAt(h) + 88, Num(file, FlagsAt(h) + 4, 4))
  }

  function TableRowAt(h: Header, i: nat): nat { FlagsAt(h) + 12 + 24 * i }

  ghost function SectionOffset(file: Bytes, h: Header, i: nat): nat { Num(file, TableRowAt(h, i) + 8, 8) }

  ghost function SectionLength(file: Bytes, h: Header, i: nat): nat { Num(file, TableRowAt(h, i) + 16, 8) }

  ghost predicate SectionThere(file: Bytes, h: Header, i: nat) {
    SectionOffset(file, h, i) != 0 || SectionLength(file, h, i) != 0
  }

  ghost function SectionBytes(file: Bytes, h: Header, i: nat): Bytes {
    Slice(file, SectionOffset(file, h, i), SectionLength(file, h, i))
  }

  /** Row i of the directory: key, where the segment starts within the section, its length and its checksum. */
  ghost predicate EntrySpelled(file: Bytes, section: nat, i: nat, pool: Bytes, e: Entry) {
    var at := section + 4 + 24 * i;
    && TextRef(file, at, pool, e.key) && e.offset == section + Num(file, at + 8, 8)
    && e.len == Num(file, at + 16, 4) && e.crc == Num(file, at + 20, 4)
  }

  ghost predicate RowIndexed(file: Bytes, section: nat, i: nat, pool: Bytes, index: seq<Entry>) {
    exists e :: e in index && EntrySpelled(file, section, i, pool, e)
  }

  /** The index has an entry for every row of the directory, and no other. */
  ghost predicate DirectorySpelled(file: Bytes, section: nat, pool: Bytes, index: seq<Entry>) {
    var n := Num(file, section, 4);
    && (forall i: nat :: i < n ==> RowIndexed(file, section, i, pool, index))
    && (forall e :: e in index ==> exists i: nat :: i < n && EntrySpelled(file, section, i, pool, e))
  }

  /** The section one row of the table describes: by its type, the graph, the airports or the details. */
  ghost predicate SectionSpelled(file: Bytes, d: UnifiedData, i: nat) {
    var h, t := d.header, Num(file, TableRowAt(d.header, i), 4);
    var there, bytes, pool := SectionThere(file, h, i), SectionBytes(file, h, i), PoolBytes(file, h);
    && 1 <= t <= 3
    && (t == 1 ==> there && GraphSpelled(bytes, pool, d.graph))
    && (t == 2 ==> (there <==> d.cifp.Some?))
    && (t == 2 && there ==> d.cifp.value.file == file && DirectorySpelled(file, SectionOffset(file, h, i), pool, d.cifp.value.index))
    && (t == 3 ==> d.detail == if there then Some(bytes) else None)
    && (t != 2 && there ==> Crc(bytes) == Num(file, TableRowAt(h, i) + 4, 4))
  }

  /** An opened cache: header, header checksum, pool, and one section of each type. */
  ghost predicate DataSpelled(file: Bytes, d: UnifiedData) {
    var at := FlagsAt(d.header);
    && HeaderSpelled(file, d.header) && at + 88 <= |file| && Num(file, at + 84, 4) == Crc(file[..at + 84])
    && Num(file, at + 8, 4) == Crc(PoolBytes(file, d.header))
    && (forall i: nat :: i < 3 ==> SectionSpelled(file, d, i))
    && TypesApart(file, d.header)
  }

  /** No two rows of the table are of one type. */
  ghost predicate TypesApart(file: Bytes, h: Header) {
    && Num(file, TableRowAt(h, 0), 4) != Num(file, TableRowAt(h, 1), 4) && Num(file, TableRowAt(h, 0), 4) != Num(file, TableRowAt(h, 2), 4)
    && Num(file, TableRowAt(h, 1), 4) != Num(file, TableRowAt(h, 2), 4)
  }

  // ---- The records, field by field ----------------------------------------------------------------

  lemma TailOffsets()
    ensures SizeOf(TAIL[..0]) == 0 && SizeOf(TAIL[..1]) == 1 && SizeOf(TAIL[..2]) == 2 && SizeOf(TAIL[..3]) == 3
    ensures SizeOf(TAIL[..4]) == 4 && SizeOf(TAIL[..5]) == 8
  {
    hide SizeOf;
    NoPrefix(TAIL);
    PrefixStep(TAIL, 0);
    PrefixStep(TAIL, 1);
    PrefixStep(TAIL, 2);
    PrefixStep(TAIL, 3);
    PrefixStep(TAIL, 4);
  }

  lemma TailFields(file: Bytes, at: nat, row: Row)
    requires RowFits(TAIL, row) && PieceAt(file, at, Packed(TAIL, row))
    ensures |row| == 6
    ensures Num(file, at, 1) == row[0] && Num(file, at + 1, 1) == row[1] && Num(file, at + 2, 1) == row[2]
    ensures Num(file, at + 3, 1) == row[3] && Num(file, at + 4, 4) == row[4] && Num(file, at + 8, 4) == row[5]
  {
    hide Packed, SizeOf, Span, PieceAt, Num;
    TailOffsets();
    FieldOf(file, at, TAIL, row, 0, 0);
    FieldOf(file, at, TAIL, row, 1, 1);
    FieldOf(file, at, TAIL, row, 2, 2);
    FieldOf(file, at, TAIL, row, 3, 3);
    FieldOf(file, at, TAIL, row, 4, 4);
    FieldOf(file, at, TAIL, row, 5, 8);
  }

  lemma HeadOffsets()
    ensures SizeOf(HEAD[..0]) == 0 && SizeOf(HEAD[..1]) == 4
  {
    hide SizeOf;
    NoPrefix(HEAD);
    PrefixStep(HEAD, 0);
  }

  lemma HeadFields(file: Bytes, at: nat, row: Row)
    requires RowFits(HEAD, row) && PieceAt(file, at, Packed(HEAD, row))
    ensures |row| == 2
    ensures Num(file, at, 4) == row[0] && Num(file, at + 4, 4) == row[1]
  {
    hide Packed, SizeOf, Span, PieceAt, Num;
    HeadOffsets();
    FieldOf(file, at, HEAD, row, 0, 0);
    FieldOf(file, at, HEAD, row, 1, 4);
  }

  lemma RowOffsets()
    ensures SizeOf(TABLE_ROW[..0]) == 0 && SizeOf(TABLE_ROW[..1]) == 4 && SizeOf(TABLE_ROW[..2]) == 8 && SizeOf(TABLE_ROW[..3]) == 16
  {
    hide SizeOf;
    NoPrefix(TABLE_ROW);
    PrefixStep(TABLE_ROW, 0);
    PrefixStep(TABLE_ROW, 1);
    PrefixStep(TABLE_ROW, 2);
  }

  lemma RowFields(file: Bytes, at: nat, row: Row)
    requires RowFits(TABLE_ROW, row) && PieceAt(file, at, Packed(TABLE_ROW, row))
    ensures |row| == 4
    ensures Num(file, at, 4) == row[0] && Num(file, at + 4, 4) == row[1] && Num(file, at + 8, 8) == row[2]
    ensures Num(file, at + 16, 8) == row[3]
  {
    hide Packed, SizeOf, Span, PieceAt, Num;
    RowOffsets();
    FieldOf(file, at, TABLE_ROW, row, 0, 0);
    FieldOf(file, at, TABLE_ROW, row, 1, 4);
    FieldOf(file, at, TABLE_ROW, row, 2, 8);
    FieldOf(file, at, TABLE_ROW, row, 3, 16);
  }

  lemma EntryOffsets()
    ensures SizeOf(DIR_ENTRY[..0]) == 0 && SizeOf(DIR_ENTRY[..1]) == 4 && SizeOf(DIR_ENTRY[..2]) == 8 && SizeOf(DIR_ENTRY[..3]) == 16
    ensures SizeOf(DIR_ENTRY[..4]) == 20
  {
    hide SizeOf;
    NoPrefix(DIR_ENTRY);
    PrefixStep(DIR_ENTRY, 0);
    PrefixStep(DIR_ENTRY, 1);
    PrefixStep(DIR_ENTRY, 2);
    PrefixStep(DIR_ENTRY, 3);
  }

  lemma EntryFields(file: Bytes, at: nat, row: Row)
    requires RowFits(DIR_ENTRY, row) && PieceAt(file, at, Packed(DIR_ENTRY, row))
    ensures |row| == 5
    ensures Num(file, at, 4) == row[0] && Num(file, at + 4, 4) == row[1] && Num(file, at + 8, 8) == row[2]
    ensures Num(file, at + 16, 4) == row[3] && Num(file, at + 20, 4) == row[4]
  {
    hide Packed, SizeOf, Span, PieceAt, Num;
    EntryOffsets();
    FieldOf(file, at, DIR_ENTRY, row, 0, 0);
    FieldOf(file, at, DIR_ENTRY, row, 1, 4);
    FieldOf(file, at, DIR_ENTRY, row, 2, 8);
    FieldOf(file, at, DIR_ENTRY, row, 3, 16);
    FieldOf(file, at, DIR_ENTRY, row, 4, 20);
  }

  // ---- The front ----------------------------------------------------------------------------------

  lemma TextIsInline(file: Bytes, at: nat, s: Bytes)
    requires |s| <= U32_MAX && PieceAt(file, at, TextBytes(s))
    ensures InlineText(file, at, s)
  {
    hide Value, PieceAt, TextBytes;
    TextIsHere(file, at, s);
  }

  lemma SignatureIsSpelled(file: Bytes)
    requires PieceAt(file, 0, Signature())
    ensures |file| >= 4 && file[0] == 0x42 && file[1] == 0x46 && file[2] == 0x44 && file[3] == 0x42 && Num(file, 4, 4) == 21
  {
    SignatureIs(file);
    hide Value, Signature, PieceAt;
    var magic := file[0..4];
    assert file[0] == magic[0] && file[1] == magic[1] && file[2] == magic[2] && file[3] == magic[3];
  }

  /** What the front says, read off the file's bytes. */
  ghost predicate FrontSpelled(file: Bytes, f: Front) {
    var h, at := HeaderOf(f), TailAt(f);
    && HeaderSpelled(file, h) && FlagsAt(h) == at && Num(file, at + 4, 4) == PoolLength(f) && Num(file, at + 8, 4) == PoolCrc(f)
    && |f.table| == 3
    && forall i: nat :: i < 3 ==> RowSpelled(file, at + 12 + 24 * i, f.table[i])
  }

  ghost predicate RowSpelled(file: Bytes, at: nat, row: Row) {
    && Num(file, at, 4) == TypeOf(row) && Num(file, at + 4, 4) == CrcOf(row) && Num(file, at + 8, 8) == OffsetOf(row)
    && Num(file, at + 16, 8) == LengthOf(row)
  }

  lemma RowIsSpelled(file: Bytes, at: nat, row: Row)
    requires RowFits(TABLE_ROW, row) && PieceAt(file, at, Packed(TABLE_ROW, row))
    ensures RowSpelled(file, at, row)
  {
    hide Packed, SizeOf, Span, PieceAt, Num;
    RowFields(file, at, row);
  }

  lemma RowSize()
    ensures SizeOf(TABLE_ROW) == 24
  {
    SizeFour(4, 4, 8, 8);
  }

  lemma OneRowIsSpelled(file: Bytes, at: nat, table: seq<Row>, i: nat)
    requires RowsFit(TABLE_ROW, table) && PieceAt(file, at, Rows(TABLE_ROW, table)) && i < |table|
    ensures RowSpelled(file, at + 24 * i, table[i])
  {
    hide *;
    RowSize();
    RowOfTable(file, at, TABLE_ROW, table, i, 24);
    RowIsSpelled(file, at + 24 * i, table[i]);
  }

  lemma TableIsSpelled(file: Bytes, at: nat, table: seq<Row>)
    requires RowsFit(TABLE_ROW, table) && PieceAt(file, at, Rows(TABLE_ROW, table))
    ensures forall i: nat :: i < |table| ==> RowSpelled(file, at + 24 * i, table[i])
  {
    hide *;
    forall i: nat | i < |table|
      ensures RowSpelled(file, at + 24 * i, table[i])
    {
      OneRowIsSpelled(file, at, table, i);
    }
  }

  lemma TailIsSpelled(file: Bytes, f: Front)
    requires FrontFits(f) && FrontPieces(file, f)
    ensures var h, at := HeaderOf(f), TailAt(f);
            && (h.capabilities.airwayDirection <==> Num(file, at, 1) != 0) && (h.capabilities.altitudeBands <==> Num(file, at + 1, 1) != 0)
            && (h.capabilities.moraGrid <==> Num(file, at + 2, 1) != 0) && (h.capabilities.msaSectors <==> Num(file, at + 3, 1) != 0)
            && Num(file, at + 4, 4) == PoolLength(f) && Num(file, at + 8, 4) == PoolCrc(f)
  {
    hide Packed, Rows, SizeOf, Span, PieceAt, Num, Signature, TextBytes, RowFits, RowsFit, Fit32;
    TailFields(file, TailAt(f), f.tail);
  }

  lemma TextsAreSpelled(file: Bytes, f: Front)
    requires FrontFits(f) && FrontPieces(file, f)
    ensures InlineText(file, 16, f.version) && InlineText(file, 20 + |f.version|, f.loader)
    ensures InlineText(file, 24 + |f.version| + |f.loader|, f.dir)
  {
    hide Packed, Rows, SizeOf, Span, PieceAt, Signature, TextBytes, RowFits, RowsFit, InlineText;
    TextIsInline(file, HEAD_END, f.version);
    TextIsInline(file, LoaderAt(f), f.loader);
    TextIsInline(file, DirAt(f), f.dir);
  }

  lemma HeadIsSpelled(file: Bytes, f: Front)
    requires FrontFits(f) && FrontPieces(file, f) && Low(f.head, 0) == SECTION_COUNT
    ensures Num(file, 8, 4) == 3 && Num(file, 12, 4) == HeaderOf(f).cycle
  {
    hide Packed, Rows, SizeOf, Span, PieceAt, Num, Signature, TextBytes, RowFits, RowsFit;
    HeadFields(file, 8, f.head);
    CycleFits(file);
  }

  lemma FrontTables(file: Bytes, f: Front)
    requires FrontFits(f) && FrontPieces(file, f)
    ensures |f.table| == 3 && forall i: nat :: i < 3 ==> RowSpelled(file, TailAt(f) + 12 + 24 * i, f.table[i])
    ensures PieceAt(file, 0, Signature())
  {
    hide Packed, Rows, SizeOf, Span, PieceAt, Signature, TextBytes, RowFits, RowsFit, RowSpelled;
    TableIsSpelled(file, TailAt(f) + 12, f.table);
  }

  lemma FrontIsSpelled(file: Bytes, f: Front)
    requires IsFront(file, f) && Low(f.head, 0) == SECTION_COUNT
    ensures FrontSpelled(file, f)
  {
    hide *;
    FrontKnown(file, f);
    HeadIsSpelled(file, f);
    TextsAreSpelled(file, f);
    TailIsSpelled(file, f);
    FrontTables(file, f);
    SignatureIsSpelled(file);
    FrontIsWhole(file, f);
  }

  lemma FrontIsWhole(file: Bytes, f: Front)
    requires |file| >= 4 && file[0] == 0x42 && file[1] == 0x46 && file[2] == 0x44 && file[3] == 0x42 && Num(file, 4, 4) == 21
    requires Num(file, 8, 4) == 3 && Num(file, 12, 4) == HeaderOf(f).cycle
    requires InlineText(file, 16, f.version) && InlineText(file, 20 + |f.version|, f.loader)
    requires InlineText(file, 24 + |f.version| + |f.loader|, f.dir)
    requires var h, at := HeaderOf(f), TailAt(f);
             && (h.capabilities.airwayDirection <==> Num(file, at, 1) != 0) && (h.capabilities.altitudeBands <==> Num(file, at + 1, 1) != 0)
             && (h.capabilities.moraGrid <==> Num(file, at + 2, 1) != 0) && (h.capabilities.msaSectors <==> Num(file, at + 3, 1) != 0)
             && Num(file, at + 4, 4) == PoolLength(f) && Num(file, at + 8, 4) == PoolCrc(f)
    requires |f.table| == 3 && forall i: nat :: i < 3 ==> RowSpelled(file, TailAt(f) + 12 + 24 * i, f.table[i])
    ensures FrontSpelled(file, f)
  {
    hide Num, InlineText, RowSpelled, Low, PoolLength, PoolCrc, Fit32;
  }

  lemma CycleFits(file: Bytes)
    ensures Num(file, 12, 4) < 0x1_0000_0000
  {
    IntIs(file, 12);
  }

  // ---- The directory --------------------------------------------------------------------------------

  lemma EntryIsSpelled(file: Bytes, section: nat, i: nat, row: Row, pool: Bytes)
    requires RowFits(DIR_ENTRY, row) && PieceAt(file, section + 4 + 24 * i, Packed(DIR_ENTRY, row)) && TextAt(pool, row, 0).Some?
    ensures EntrySpelled(file, section, i, pool, EntryOf(row, section, pool))
  {
    hide Packed, SizeOf, Span, PieceAt, Num, Resolve, TextRef;
    var at := section + 4 + 24 * i;
    EntryFields(file, at, row);
    TextIsReferred(file, at, pool, TextAt(pool, row, 0).value);
  }

  lemma RowIsEntry(file: Bytes, offset: nat, rows: seq<Row>, i: nat, pool: Bytes)
    requires DirectoryIs(file, offset, rows) && i < |rows| && TextAt(pool, rows[i], 0).Some?
    ensures EntrySpelled(file, offset, i, pool, EntryOf(rows[i], offset, pool))
  {
    hide *;
    DirectoryParts(file, offset, rows);
    EntryIs24();
    RowOfTable(file, offset + 4, DIR_ENTRY, rows, i, 24);
    EntryIsSpelled(file, offset, i, rows[i], pool);
  }

  lemma EntryIs24()
    ensures SizeOf(DIR_ENTRY) == 24
  {
    EntrySize();
  }

  lemma EntriesAreSpelled(file: Bytes, offset: nat, length: nat, crc: nat, pool: Bytes, rows: seq<Row>)
    requires Opens(file, offset, length, crc, pool, rows)
    ensures Num(file, offset, 4) == |rows|
    ensures forall i: nat :: i < |rows| ==> EntrySpelled(file, offset, i, pool, EntryOf(rows[i], offset, pool))
  {
    DirectoryParts(file, offset, rows);
    hide DirectoryIs, Rows, Value, Prefix, EntryOf, TextAt, EntrySpelled, RowsFit, PieceAt, Crc;
    forall i: nat | i < |rows|
      ensures EntrySpelled(file, offset, i, pool, EntryOf(rows[i], offset, pool))
    {
      assert RowOk(rows[i], |rows|, length, pool);
      RowIsEntry(file, offset, rows, i, pool);
    }
  }

  lemma DirectoryIsSpelled(file: Bytes, offset: nat, length: nat, crc: nat, pool: Bytes, rows: seq<Row>, a: CifpArchive)
    requires Opens(file, offset, length, crc, pool, rows) && Opened(a, file, offset, pool, rows)
    ensures a.file == file && DirectorySpelled(file, offset, pool, a.index)
  {
    hide Opens, EntryOf, EntrySpelled, SortedIndex, Num;
    EntriesAreSpelled(file, offset, length, crc, pool, rows);
    RowsHaveEntries(file, offset, pool, rows, a);
    EntriesHaveRows(file, offset, pool, rows, a);
  }

  /** Every segment an archive lists lies within its section, and behind the directory unless it is empty. */
  lemma SegmentsLieWithin(file: Bytes, offset: nat, length: nat, crc: nat, pool: Bytes, rows: seq<Row>, a: CifpArchive, e: Entry)
    requires Opens(file, offset, length, crc, pool, rows) && Opened(a, file, offset, pool, rows) && e in a.index
    ensures |e.key| <= 7 && offset <= e.offset && e.offset + e.len <= offset + length
    ensures e.len > 0 ==> offset + 4 + 24 * Num(file, offset, 4) <= e.offset
  {
    hide Low, TextAt, DirectoryChecks, SortedIndex, Num;
    EntriesAreSpelled(file, offset, length, crc, pool, rows);
    var i :| 0 <= i < |rows| && e == EntryOf(rows[i], offset, pool);
    assert RowOk(rows[i], |rows|, length, pool);
  }

  lemma RowsHaveEntries(file: Bytes, offset: nat, pool: Bytes, rows: seq<Row>, a: CifpArchive)
    requires Opened(a, file, offset, pool, rows)
    requires forall i: nat :: i < |rows| ==> EntrySpelled(file, offset, i, pool, EntryOf(rows[i], offset, pool))
    ensures forall i: nat :: i < |rows| ==> RowIndexed(file, offset, i, pool, a.index)
  {
    hide EntryOf, EntrySpelled, SortedIndex;
    forall i: nat | i < |rows|
      ensures RowIndexed(file, offset, i, pool, a.index)
    {
      assert EntryOf(rows[i], offset, pool) in a.index && EntrySpelled(file, offset, i, pool, EntryOf(rows[i], offset, pool));
    }
  }

  lemma EntriesHaveRows(file: Bytes, offset: nat, pool: Bytes, rows: seq<Row>, a: CifpArchive)
    requires Opened(a, file, offset, pool, rows)
    requires forall i: nat :: i < |rows| ==> EntrySpelled(file, offset, i, pool, EntryOf(rows[i], offset, pool))
    ensures forall e :: e in a.index ==> exists i: nat :: i < |rows| && EntrySpelled(file, offset, i, pool, e)
  {
    hide EntryOf, EntrySpelled, SortedIndex;
    forall e | e in a.index
      ensures exists i: nat :: i < |rows| && EntrySpelled(file, offset, i, pool, e)
    {
      var i :| 0 <= i < |rows| && e == EntryOf(rows[i], offset, pool);
      assert EntrySpelled(file, offset, i, pool, e);
    }
  }

  // ---- The whole file -------------------------------------------------------------------------------

  /** With every type once, the row of a type is the one row that has it. */
  lemma {:induction false} OwnSlot(table: seq<Row>, i: nat)
    requires i < |table| && forall j, k :: 0 <= j < k < |table| ==> TypeOf(table[j]) != TypeOf(table[k])
    ensures Slot(table, TypeOf(table[i])) == table[i]
    decreases |table|
  {
    hide TypeOf;
    if i < |table| - 1 {
      OwnSlot(table[..|table| - 1], i);
    }
  }

  lemma SectionIsSpelled(file: Bytes, f: Front, d: UnifiedData, i: nat)
    requires Framed(file, f) && Readable(file, f) && DataIs(file, f, d) && FrontSpelled(file, f) && i < 3
    ensures SectionSpelled(file, d, i)
  {
    hide FrontChecks, InFile, Crc, Holds, CifpOpens, CifpIs, HeaderSpelled, Num, PoolOf, GraphSpelled, DirectorySpelled, HeaderOf, Low;
    OwnSlot(f.table, i);
    var row := f.table[i];
    assert RowSpelled(file, TableRowAt(d.header, i), row);
    PoolIs(file, f);
    if TypeOf(row) == GRAPH {
      GraphBytes.HeldIsSpelled(Body(file, row), PoolOf(file, f), d.graph);
    } else if TypeOf(row) == CIFP {
      AirportsAreSpelled(file, row, PoolOf(file, f), d.cifp);
    }
  }

  lemma PoolIs(file: Bytes, f: Front)
    requires FrontSpelled(file, f)
    ensures PoolOf(file, f) == PoolBytes(file, HeaderOf(f))
  {
    hide HeaderSpelled, Num, RowSpelled, PoolLength, PoolCrc, Slice;
  }

  lemma AirportsAreSpelled(file: Bytes, row: Row, pool: Bytes, cifp: Option<CifpArchive>)
    requires CifpIs(file, row, pool, cifp)
    ensures Present(row) <==> cifp.Some?
    ensures Present(row) ==> cifp.value.file == file && DirectorySpelled(file, OffsetOf(row), pool, cifp.value.index)
  {
    hide Present, OffsetOf, LengthOf, CrcOf, Opens, Opened, Indexed, DirectorySpelled;
    if Present(row) {
      var rows :| Opens(file, OffsetOf(row), LengthOf(row), CrcOf(row), pool, rows) && Opened(cifp.value, file, OffsetOf(row), pool, rows);
      DirectoryIsSpelled(file, OffsetOf(row), LengthOf(row), CrcOf(row), pool, rows, cifp.value);
    }
  }

  /** Whatever a file opens into, its bytes spell it. */
  lemma OpenedIsSpelled(file: Bytes, d: UnifiedData)
    requires OpenAnswers(file, Ready(d))
    ensures DataSpelled(file, d)
  {
    hide Framed, Readable, DataIs, OfOtherVersion, DataSpelled;
    var f :| Framed(file, f) && Readable(file, f) && DataIs(file, f, d);
    DataIsSpelled(file, f, d);
  }

  lemma DataIsSpelled(file: Bytes, f: Front, d: UnifiedData)
    requires Framed(file, f) && Readable(file, f) && DataIs(file, f, d)
    ensures DataSpelled(file, d)
  {
    hide *;
    FramedFront(file, f);
    FrontIsSpelled(file, f);
    HeaderChecks(file, f);
    SectionsAreSpelled(file, f, d);
    TypesDiffer(file, f);
    PoolChecks(file, f);
    SameHeader(file, f, d);
    DataIsWhole(file, d);
  }

  lemma SectionsAreSpelled(file: Bytes, f: Front, d: UnifiedData)
    requires Framed(file, f) && Readable(file, f) && DataIs(file, f, d) && FrontSpelled(file, f)
    ensures forall i: nat :: i < 3 ==> SectionSpelled(file, d, i)
  {
    hide *;
    forall i: nat | i < 3
      ensures SectionSpelled(file, d, i)
    {
      SectionIsSpelled(file, f, d, i);
    }
  }

  lemma SameHeader(file: Bytes, f: Front, d: UnifiedData)
    requires DataIs(file, f, d) && FrontSpelled(file, f)
    ensures d.header == HeaderOf(f) && FlagsAt(d.header) == TailAt(f) && HeaderSpelled(file, d.header)
  {
    hide HeaderSpelled, Num, RowSpelled, Holds, CifpIs, Slot, TailAt, FlagsAt, HeaderOf, PoolOf;
  }

  lemma PoolChecks(file: Bytes, f: Front)
    requires Framed(file, f) && FrontSpelled(file, f)
    ensures Num(file, TailAt(f) + 8, 4) == Crc(PoolBytes(file, HeaderOf(f)))
  {
    hide FrontChecks, InFile, EachOnce, Crc, HeaderSpelled, Num, RowSpelled, PoolOf, PoolBytes, HeaderOf, TailAt;
    PoolIs(file, f);
  }

  lemma DataIsWhole(file: Bytes, d: UnifiedData)
    requires var at := FlagsAt(d.header);
             && HeaderSpelled(file, d.header) && at + 88 <= |file| && Num(file, at + 84, 4) == Crc(file[..at + 84])
             && Num(file, at + 8, 4) == Crc(PoolBytes(file, d.header))
    requires forall i: nat :: i < 3 ==> SectionSpelled(file, d, i)
    requires TypesApart(file, d.header)
    ensures DataSpelled(file, d)
  {
    hide HeaderSpelled, Num, Crc, PoolBytes, FlagsAt, SectionSpelled, TypesApart;
  }

  lemma FramedFront(file: Bytes, f: Front)
    requires Framed(file, f)
    ensures IsFront(file, f) && Low(f.head, 0) == SECTION_COUNT && FrontChecks(file, f)
  {
    hide IsFront, Crc, InFile, EachOnce, Present, PieceAt;
  }

  lemma TypesDiffer(file: Bytes, f: Front)
    requires Framed(file, f) && FrontSpelled(file, f)
    ensures TypesApart(file, HeaderOf(f))
  {
    hide FrontChecks, InFile, Crc, HeaderSpelled, Num, PoolOf, HeaderOf, Low, Present;
    assert RowSpelled(file, TableRowAt(HeaderOf(f), 0), f.table[0]);
    assert RowSpelled(file, TableRowAt(HeaderOf(f), 1), f.table[1]);
    assert RowSpelled(file, TableRowAt(HeaderOf(f), 2), f.table[2]);
  }

  lemma HeaderChecks(file: Bytes, f: Front)
    requires FrontChecks(file, f)
    ensures TailAt(f) + 88 <= |file| && Num(file, TailAt(f) + 84, 4) == Crc(file[..TailAt(f) + 84])
  {
    hide IsFront, FrontBytes, Value, Crc, PieceAt, LittleEndian;
    ChecksumRead(file, f);
  }
}
