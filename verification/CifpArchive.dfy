/** Opening the procedure section of the cache and fetching airports from it on demand. */
module CifpArchives {
  import opened Numbers
  import opened ByteIO
  import opened Checksums
  import opened Groups
  import opened GraphWire
  import opened GraphCodec
  import opened GraphEncoding
  import opened CifpSegments
  import opened CifpCodec
  import opened FixedNames
  import opened Pieces

  const DIR_ENTRY: Widths := [4, 4, 8, 4, 4]
  const DIR_ENTRY_SIZE := 24

  /** The length of the count and the directory. */
  function DirectoryPrefixLen(count: nat): (n: nat)
    ensures n >= 4
  {
    4 + count * DIR_ENTRY_SIZE
  }

  lemma EntrySize()
    ensures SizeOf(DIR_ENTRY) == DIR_ENTRY_SIZE
  {
    SizeFive(4, 4, 8, 4, 4);
  }

  function Octets(bs: Bytes): (out: seq<Octet>)
    ensures |out| == |bs|
  {
    seq(|bs|, i requires 0 <= i < |bs| => bs[i] as bv8)
  }

  /** The checksum stored beside a stretch of bytes. */
  function Crc(bs: Bytes): (c: nat)
    ensures c <= U32_MAX
  {
    Number(Checksum(Octets(bs)))
  }

  function Number(w: Word): (n: nat)
    ensures n <= U32_MAX
  {
    w as nat
  }

  /** Carries a running checksum over more bytes. */
  function Continue(crc: Word, bs: Bytes): Word {
    Xor(Feed(Xor(crc, ONES), Octets(bs)), ONES)
  }

  /** Checksumming two stretches one after the other is checksumming them joined. */
  lemma ContinueIsJoined(a: Bytes, b: Bytes)
    ensures Number(Continue(Continue(0, a), b)) == Crc(a + b)
  {
    hide Feed, Xor;
    assert Octets(a + b) == Octets(a) + Octets(b);
    ChecksumContinues(Octets(a), Octets(b));
  }

  /** A positional read from the file: all of it or nothing. */
  function ReadAt(file: Bytes, at: nat, n: nat): Option<Bytes> {
    if at + n <= |file| then Some(file[at..at + n]) else None
  }

  datatype Entry = Entry(key: Bytes, offset: nat, len: nat, crc: nat)

  datatype CifpArchive = CifpArchive(file: Bytes, index: seq<Entry>, pool: Bytes)

  ghost predicate SortedIndex(index: seq<Entry>) {
    forall i, j :: 0 <= i < j < |index| ==> !Less(index[j].key, index[i].key)
  }

  // ---- Opening --------------------------------------------------------------------------------

  /** A directory row the opener accepts: a short key that resolves, and a segment behind the directory. */
  ghost predicate RowOk(row: Row, n: nat, sectionLength: nat, pool: Bytes) {
    && TextAt(pool, row, 0).Some? && Fits8(TextAt(pool, row, 0).value)
    && Low(row, 2) <= sectionLength && Low(row, 3) <= sectionLength - Low(row, 2)
    && (Low(row, 3) > 0 ==> Low(row, 2) >= DirectoryPrefixLen(n))
  }

  ghost function EntryOf(row: Row, sectionOffset: nat, pool: Bytes): Entry {
    Entry(if TextAt(pool, row, 0).Some? then TextAt(pool, row, 0).value else [],
          sectionOffset + Low(row, 2), Low(row, 3), Low(row, 4))
  }

  /** The bytes the section's checksum covers: the count and the directory. */
  ghost function Prefix(rows: seq<Row>): Bytes
    requires RowsFit(DIR_ENTRY, rows)
  {
    LittleEndian(|rows|, 4) + Rows(DIR_ENTRY, rows)
  }

  lemma PrefixSize(rows: seq<Row>)
    requires RowsFit(DIR_ENTRY, rows)
    ensures |Prefix(rows)| == DirectoryPrefixLen(|rows|)
  {
    EntrySize();
    RowsSize(DIR_ENTRY, rows);
    hide Rows, LittleEndian, SizeOf, RowsFit;
  }

  /** These rows are the section's directory. */
  ghost predicate DirectoryIs(file: Bytes, offset: nat, rows: seq<Row>) {
    |rows| <= U32_MAX && RowsFit(DIR_ENTRY, rows) && PieceAt(file, offset, Prefix(rows))
  }

  /** These rows are the directory, it lies within the section, and its checksum is right. */
  ghost predicate DirectoryChecks(file: Bytes, offset: nat, length: nat, crc: nat, rows: seq<Row>) {
    DirectoryIs(file, offset, rows) && length >= DirectoryPrefixLen(|rows|) && Crc(Prefix(rows)) == crc
  }

  /** The section opens with this directory. */
  ghost predicate Opens(file: Bytes, offset: nat, length: nat, crc: nat, pool: Bytes, rows: seq<Row>) {
    && DirectoryChecks(file, offset, length, crc, rows)
    && forall i :: 0 <= i < |rows| ==> RowOk(rows[i], |rows|, length, pool)
  }

  lemma PrefixPieces(file: Bytes, offset: nat, rows: seq<Row>)
    requires RowsFit(DIR_ENTRY, rows)
    ensures PieceAt(file, offset, Prefix(rows)) <==>
              PieceAt(file, offset, LittleEndian(|rows|, 4)) && PieceAt(file, offset + 4, Rows(DIR_ENTRY, rows))
  {
    hide Rows, LittleEndian, Span, PieceAt;
    PiecesJoin(file, offset, LittleEndian(|rows|, 4), Rows(DIR_ENTRY, rows));
  }

  lemma RowsAre24(rows: seq<Row>)
    requires RowsFit(DIR_ENTRY, rows)
    ensures |Rows(DIR_ENTRY, rows)| == |rows| * DIR_ENTRY_SIZE && |Prefix(rows)| == DirectoryPrefixLen(|rows|)
  {
    PrefixSize(rows);
    RowsSize(DIR_ENTRY, rows);
    EntrySize();
    hide Rows, LittleEndian, SizeOf, Span;
  }

  /** A number is in the file when reading its four bytes gives it. */
  lemma CountPiece(file: Bytes, offset: nat, n: nat)
    requires n <= U32_MAX
    ensures PieceAt(file, offset, LittleEndian(n, 4)) <==> offset + 4 <= |file| && Value(file[offset..offset + 4]) == n
  {
    CountWritten(n);
    if offset + 4 <= |file| {
      CountRead(file[offset..offset + 4]);
    }
    hide LittleEndian, Value;
  }

  /** What the directory looks like to someone reading its count and then its rows. */
  lemma DirectoryParts(file: Bytes, offset: nat, rows: seq<Row>)
    requires DirectoryIs(file, offset, rows)
    ensures offset + DirectoryPrefixLen(|rows|) <= |file| && Value(file[offset..offset + 4]) == |rows|
    ensures RowsFit(DIR_ENTRY, rows) && PieceAt(file, offset + 4, Rows(DIR_ENTRY, rows))
    ensures Prefix(rows) == file[offset..offset + DirectoryPrefixLen(|rows|)]
  {
    hide Prefix, Rows, LittleEndian, Value, Span, PieceAt;
    RowsAre24(rows);
    PrefixPieces(file, offset, rows);
    CountPiece(file, offset, |rows|);
    PieceIs(file, offset, Prefix(rows), DirectoryPrefixLen(|rows|));
  }

  lemma OneDirectory(file: Bytes, offset: nat, x: seq<Row>, y: seq<Row>)
    requires DirectoryIs(file, offset, x) && DirectoryIs(file, offset, y)
    ensures x == y
  {
    DirectoryParts(file, offset, x);
    DirectoryParts(file, offset, y);
    RowsAre24(x);
    RowsAre24(y);
    hide DirectoryIs, Prefix, Rows, Value, RowFits, PieceAt;
    OnePiece(file, offset + 4, Rows(DIR_ENTRY, x), Rows(DIR_ENTRY, y));
    RowsAreInjective(DIR_ENTRY, x, y);
  }

  lemma FourBytesFit(bs: Bytes)
    requires |bs| == 4
    ensures Value(bs) <= U32_MAX
  {
    ValueFits(bs);
    Spans();
    hide Value, Span;
  }

  /** Rows parsed behind a parsed count are the directory. */
  lemma DirectoryRead(file: Bytes, offset: nat, rows: seq<Row>, n: nat)
    requires offset + DirectoryPrefixLen(n) <= |file| && n == Value(file[offset..offset + 4])
    requires |rows| == n && RowsFit(DIR_ENTRY, rows)
    requires Rows(DIR_ENTRY, rows) == file[offset + 4..offset + DirectoryPrefixLen(n)]
    ensures DirectoryIs(file, offset, rows) && Prefix(rows) == file[offset..offset + DirectoryPrefixLen(n)]
  {
    FourBytesFit(file[offset..offset + 4]);
    RowsRead(file, offset, rows, n);
    hide Prefix, Rows, LittleEndian, Value, Span, PieceAt, DirectoryPrefixLen;
    RowsAre24(rows);
    CountPiece(file, offset, n);
    PrefixPieces(file, offset, rows);
    PieceIs(file, offset, Prefix(rows), DirectoryPrefixLen(n));
  }

  lemma RowsRead(file: Bytes, offset: nat, rows: seq<Row>, n: nat)
    requires offset + DirectoryPrefixLen(n) <= |file| && RowsFit(DIR_ENTRY, rows)
    requires Rows(DIR_ENTRY, rows) == file[offset + 4..offset + DirectoryPrefixLen(n)]
    ensures offset + 4 <= |file| && PieceAt(file, offset + 4, Rows(DIR_ENTRY, rows))
  {
    hide Rows, Span;
    Cut(file, offset + 4, n * DIR_ENTRY_SIZE);
  }

  /** The key goes before every later one. */
  method InsertEntry(index: seq<Entry>, e: Entry) returns (out: seq<Entry>)
    requires SortedIndex(index)
    ensures SortedIndex(out) && forall x :: x in out <==> x in index || x == e
  {
    hide Less;
    var k := 0;
    while k < |index| && !Less(e.key, index[k].key)
      invariant 0 <= k <= |index|
      invariant forall j :: 0 <= j < k ==> !Less(e.key, index[j].key)
    {
      k := k + 1;
    }
    EntryInOrder(index, e, k);
    out := index[..k] + [e] + index[k..];
  }

  lemma EntryInOrder(index: seq<Entry>, e: Entry, k: nat)
    requires SortedIndex(index) && k <= |index|
    requires forall j :: 0 <= j < k ==> !Less(e.key, index[j].key)
    requires k < |index| ==> Less(e.key, index[k].key)
    ensures SortedIndex(index[..k] + [e] + index[k..])
    ensures forall x :: x in index[..k] + [e] + index[k..] <==> x in index || x == e
  {
    hide Less;
    var out := index[..k] + [e] + index[k..];
    assert index == index[..k] + index[k..];
    forall i, j | 0 <= i < j < |out|
      ensures !Less(out[j].key, out[i].key)
    {
      if i == k {
        assert out[j] == index[j - 1] && (j - 1 == k || !Less(index[j - 1].key, index[k].key));
        LessIsStrictTotal(index[j - 1].key, e.key, index[k].key);
        LessIsStrictTotal(e.key, index[k].key, e.key);
        LessIsStrictTotal(index[k].key, index[k].key, e.key);
      }
    }
  }

  /** Reads the directory, bounded by the section, and verifies its checksum. */
  method ReadDirectory(file: Bytes, offset: nat, length: nat, crc: nat) returns (r: Option<seq<Row>>)
    ensures r.Some? ==> DirectoryChecks(file, offset, length, crc, r.value)
    ensures r.None? ==> forall rows :: !DirectoryChecks(file, offset, length, crc, rows)
  {
    hide DirectoryIs, Prefix, Rows, LittleEndian, Value, Span, SizeOf, Crc, Continue, PieceAt, RowFits;
    EntrySize();
    if length < 4 {
      return None;
    }
    forall rows | DirectoryChecks(file, offset, length, crc, rows)
      ensures offset + 4 <= |file| && Value(file[offset..offset + 4]) == |rows|
      ensures offset + DirectoryPrefixLen(|rows|) <= |file|
      ensures RowsFit(DIR_ENTRY, rows) && Prefix(rows) == file[offset..offset + DirectoryPrefixLen(|rows|)]
    {
      DirectoryParts(file, offset, rows);
    }
    var countBuf := ReadAt(file, offset, 4);
    if countBuf.None? {
      return None;
    }
    var cr := new ByteReader(countBuf.value);
    var n := cr.Unsigned(4);
    assert countBuf.value[0..4] == file[offset..offset + 4];
    if n > (length - 4) / DIR_ENTRY_SIZE {
      return None;
    }
    var dir := ReadAt(file, offset + 4, n * DIR_ENTRY_SIZE);
    if dir.None? {
      return None;
    }
    var dirCrc := Number(Continue(Continue(0, countBuf.value), dir.value));
    ContinueIsJoined(countBuf.value, dir.value);
    assert countBuf.value + dir.value == file[offset..offset + DirectoryPrefixLen(n)];
    if dirCrc != crc {
      return None;
    }
    var dr := new ByteReader(dir.value);
    var rows := dr.Table(DIR_ENTRY, n);
    assert dir.value[0..n * DIR_ENTRY_SIZE] == dir.value;
    DirectoryRead(file, offset, rows, n);
    r := Some(rows);
  }

  /** The archive a directory opens into. */
  ghost predicate Opened(a: CifpArchive, file: Bytes, offset: nat, pool: Bytes, rows: seq<Row>) {
    && a.file == file && a.pool == pool && SortedIndex(a.index)
    && forall e :: e in a.index <==> exists i :: 0 <= i < |rows| && e == EntryOf(rows[i], offset, pool)
  }

  /** What opening a section answers. */
  ghost predicate SectionAnswers(file: Bytes, offset: nat, length: nat, crc: nat, pool: Bytes, r: Option<CifpArchive>) {
    && (r.Some? ==> exists rows :: Opens(file, offset, length, crc, pool, rows) && Opened(r.value, file, offset, pool, rows))
    && (r.None? ==> forall rows :: !Opens(file, offset, length, crc, pool, rows))
  }

  /** Opens the section: reads and checks its directory, and sorts it by key. Segments stay in the file. */
  method OpenSection(file: Bytes, offset: nat, length: nat, crc: nat, pool: Bytes) returns (r: Option<CifpArchive>)
    ensures SectionAnswers(file, offset, length, crc, pool, r)
    ensures r.Some? ==> Indexed(r.value)
  {
    hide RowOk, EntryOf, SortedIndex, Crc;
    var rows := ReadDirectory(file, offset, length, crc);
    if rows.None? {
      return None;
    }
    forall x | Opens(file, offset, length, crc, pool, x)
      ensures x == rows.value
    {
      OneDirectory(file, offset, x, rows.value);
    }
    r := IndexRows(file, offset, length, pool, rows.value);
    if r.Some? {
      assert Opens(file, offset, length, crc, pool, rows.value) && Opened(r.value, file, offset, pool, rows.value);
      forall e | e in r.value.index
        ensures Fits8(e.key)
      {
        var i :| 0 <= i < |rows.value| && e == EntryOf(rows.value[i], offset, pool);
        EntryIsPacked(rows.value[i], |rows.value|, length, offset, pool);
      }
    }
  }

  lemma EntryIsPacked(row: Row, n: nat, length: nat, offset: nat, pool: Bytes)
    requires RowOk(row, n, length, pool)
    ensures Fits8(EntryOf(row, offset, pool).key)
  {
  }

  /** Checks each row and files its entry; one bad row refuses the section. */
  method IndexRows(file: Bytes, offset: nat, length: nat, pool: Bytes, rows: seq<Row>) returns (r: Option<CifpArchive>)
    ensures r.Some? <==> forall i :: 0 <= i < |rows| ==> RowOk(rows[i], |rows|, length, pool)
    ensures r.Some? ==>
              Opened(r.value, file, offset, pool, rows)
  {
    hide Low, SortedIndex;
    var index: seq<Entry> := [];
    var n := |rows|;
    NothingSorted();
    for i := 0 to n
      invariant forall k :: 0 <= k < i ==> RowOk(rows[k], n, length, pool)
      invariant SortedIndex(index)
      invariant forall e :: e in index <==> exists k :: 0 <= k < i && e == EntryOf(rows[k], offset, pool)
    {
      var row := rows[i];
      var key := Resolve(pool, Low(row, 0), Low(row, 1));
      if key.None? {
        return None;
      }
      if Low(row, 2) > length || Low(row, 3) > length - Low(row, 2) {
        return None;
      }
      if Low(row, 3) > 0 && Low(row, 2) < DirectoryPrefixLen(n) {
        return None;
      }
      if !Fits8(key.value) {
        return None;
      }
      index := InsertEntry(index, Entry(key.value, offset + Low(row, 2), Low(row, 3), Low(row, 4)));
    }
    r := Some(CifpArchive(file, index, pool));
  }

  lemma NothingSorted()
    ensures SortedIndex([])
  {
  }

  // ---- Looking up -----------------------------------------------------------------------------

  /** Finds an entry by halving the sorted index; a key too long to be packed is in no index. */
  method Find(a: CifpArchive, icao: Bytes) returns (found: Option<Entry>)
    requires SortedIndex(a.index) && forall e :: e in a.index ==> Fits8(e.key)
    ensures found.Some? ==> found.value in a.index && found.value.key == icao
    ensures found.None? ==> forall e :: e in a.index ==> e.key != icao
  {
    hide Less;
    if !Fits8(icao) {
      return None;
    }
    var lo, hi := 0, |a.index|;
    while lo < hi
      invariant 0 <= lo <= hi <= |a.index|
      invariant forall i :: 0 <= i < lo ==> Less(a.index[i].key, icao)
      invariant forall i :: hi <= i < |a.index| ==> !Less(a.index[i].key, icao)
    {
      var mid := lo + (hi - lo) / 2;
      if Less(a.index[mid].key, icao) {
        forall i | 0 <= i < mid
          ensures Less(a.index[i].key, icao)
        {
          LessIsStrictTotal(a.index[i].key, a.index[mid].key, icao);
        }
        lo := mid + 1;
      } else {
        forall i | mid <= i < |a.index|
          ensures !Less(a.index[i].key, icao)
        {
          LessIsStrictTotal(a.index[mid].key, a.index[i].key, icao);
        }
        hi := mid;
      }
    }
    if lo < |a.index| && a.index[lo].key == icao {
      return Some(a.index[lo]);
    }
    forall i | 0 <= i < |a.index|
      ensures a.index[i].key != icao
    {
      NotHere(a.index, icao, lo, i);
    }
    found := None;
  }

  /** Below the lower bound keys are less; at and beyond it, only a run of equal keys could match, and it does not. */
  lemma NotHere(index: seq<Entry>, icao: Bytes, lo: nat, i: nat)
    requires SortedIndex(index) && i < |index| && lo <= |index|
    requires forall k :: 0 <= k < lo ==> Less(index[k].key, icao)
    requires forall k :: lo <= k < |index| ==> !Less(index[k].key, icao)
    requires lo < |index| ==> index[lo].key != icao
    ensures index[i].key != icao
  {
    hide Less;
    LessIsStrictTotal(icao, icao, icao);
    if lo < |index| {
      LessIsStrictTotal(index[lo].key, icao, icao);
    }
  }

  datatype Fetched = Missing | Corrupt | Found(data: CifpData)

  /** An empty segment is never read from the file. */
  function EntryBytes(a: CifpArchive, e: Entry): Option<Bytes> {
    if e.len == 0 then Some([]) else ReadAt(a.file, e.offset, e.len)
  }

  /** The entry's segment reads, matches its checksum, and holds d. */
  ghost predicate EntryHolds(a: CifpArchive, e: Entry, d: CifpData) {
    EntryBytes(a, e).Some? && Crc(EntryBytes(a, e).value) == e.crc && SegmentHolds(EntryBytes(a, e).value, a.pool, d)
  }

  lemma OneHeld(a: CifpArchive, e: Entry, x: CifpData, y: CifpData)
    requires EntryHolds(a, e, x) && EntryHolds(a, e, y)
    ensures x == y
  {
    hide SegmentHolds, Crc;
    SegmentHoldsOne(EntryBytes(a, e).value, a.pool, x, y);
  }

  method ReadEntry(a: CifpArchive, e: Entry) returns (r: Option<CifpData>)
    ensures r.Some? ==> EntryHolds(a, e, r.value)
    ensures r.None? ==> forall d :: !EntryHolds(a, e, d)
  {
    hide SegmentHolds, Crc;
    var bytes := EntryBytes(a, e);
    if bytes.None? {
      return None;
    }
    if Crc(bytes.value) != e.crc {
      return None;
    }
    r := DeserializeSegment(bytes.value, a.pool);
  }

  /** An archive a section opened into: sorted, with packable keys. */
  ghost predicate Indexed(a: CifpArchive) {
    SortedIndex(a.index) && forall e :: e in a.index ==> Fits8(e.key)
  }

  /** What fetching an airport promises. */
  ghost predicate FetchAnswers(a: CifpArchive, icao: Bytes, r: Fetched) {
    && (r.Missing? ==> forall e :: e in a.index ==> e.key != icao)
    && (r.Found? ==> exists e :: e in a.index && e.key == icao && EntryHolds(a, e, r.data))
    && (r.Corrupt? ==> exists e :: e in a.index && e.key == icao && forall d :: !EntryHolds(a, e, d))
  }

  /** What fetching every airport promises. */
  ghost predicate FetchAllAnswers(a: CifpArchive, r: Option<map<Bytes, CifpData>>) {
    && (r.Some? ==> forall e :: e in a.index ==> e.key in r.value && exists d :: EntryHolds(a, e, d))
    && (r.Some? ==> forall key :: key in r.value ==>
          exists e :: e in a.index && e.key == key && EntryHolds(a, e, r.value[key]))
    && (r.None? ==> exists e :: e in a.index && forall d :: !EntryHolds(a, e, d))
  }

  /** One airport's procedures: none when it has no entry, and never a damaged segment passed off as none. */
  method Fetch(a: CifpArchive, icao: Bytes) returns (r: Fetched)
    requires Indexed(a)
    ensures FetchAnswers(a, icao, r)
  {
    hide EntryHolds, SortedIndex;
    var found := Find(a, icao);
    if found.None? {
      return Missing;
    }
    var data := ReadEntry(a, found.value);
    r := if data.None? then Corrupt else Found(data.value);
  }

  /** Every airport's procedures; a single damaged segment fails the whole. */
  method FetchAll(a: CifpArchive) returns (r: Option<map<Bytes, CifpData>>)
    ensures FetchAllAnswers(a, r)
  {
    hide EntryHolds;
    var out: map<Bytes, CifpData> := map[];
    for i := 0 to |a.index|
      invariant forall k :: 0 <= k < i ==> a.index[k].key in out && exists d :: EntryHolds(a, a.index[k], d)
      invariant forall key :: key in out ==> exists e :: e in a.index && e.key == key && EntryHolds(a, e, out[key])
    {
      var data := ReadEntry(a, a.index[i]);
      assert a.index[i] in a.index;
      if data.None? {
        return None;
      }
      if a.index[i].key !in out {
        out := out[a.index[i].key := data.value];
      }
    }
    r := Some(out);
  }
}
