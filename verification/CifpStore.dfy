/** The procedure section of the cache: written with a directory of airports, opened, and fetched back. */
module CifpStore {
  import opened Numbers
  import opened ByteIO
  import opened Pieces
  import opened Checksums
  import opened Groups
  import opened GraphWire
  import opened GraphCodec
  import opened GraphEncoding
  import opened CifpSegments
  import opened CifpCodec
  import opened CifpArchives
  import opened FixedNames

  // ---- Encoding -------------------------------------------------------------------------------

  type Procedures = seq<(Bytes, CifpData)>

  ghost predicate DistinctKeys(ps: Procedures) {
    forall i, j :: 0 <= i < j < |ps| ==> ps[i].0 != ps[j].0
  }

  /** What the encoder accepts: packable, distinct keys. */
  ghost predicate Storable(ps: Procedures) {
    DistinctKeys(ps) && forall i :: 0 <= i < |ps| ==> Fits8(ps[i].0)
  }

  method CheckKeys(ps: Procedures) returns (ok: bool)
    ensures ok <==> Storable(ps)
  {
    var seen: set<Bytes> := {};
    for i := 0 to |ps|
      invariant forall k :: 0 <= k < i ==> Fits8(ps[k].0)
      invariant forall s :: s in seen <==> exists k :: 0 <= k < i && ps[k].0 == s
      invariant forall j, k :: 0 <= j < k < i ==> ps[j].0 != ps[k].0
    {
      if !Fits8(ps[i].0) || ps[i].0 in seen {
        return false;
      }
      seen := seen + {ps[i].0};
    }
    ok := true;
  }

  /** The bodies hold the procedures, against the pool. */
  ghost predicate BodiesHold(bodies: seq<Bytes>, ps: Procedures, pool: Bytes) {
    |bodies| <= |ps| && forall i :: 0 <= i < |bodies| ==> SegmentHolds(bodies[i], pool, ps[i].1)
  }

  lemma BodiesGrow(bodies: seq<Bytes>, ps: Procedures, pool: Bytes, more: Bytes)
    requires BodiesHold(bodies, ps, pool) && pool <= more
    ensures BodiesHold(bodies, ps, more)
  {
    hide SegmentHolds;
    forall i | 0 <= i < |bodies|
      ensures SegmentHolds(bodies[i], more, ps[i].1)
    {
      SegmentHeldGrows(bodies[i], pool, more, ps[i].1);
    }
  }

  /** Every airport's data is valid and countable. */
  ghost predicate AllValid(ps: Procedures) {
    forall i :: 0 <= i < |ps| ==> ValidData(ps[i].1) && CifpCodec.CountsFit(ps[i].1)
  }

  method WriteBodies(ps: Procedures, pool: StringPool) returns (bodies: seq<Bytes>)
    requires pool.Valid()
    modifies pool
    ensures pool.Valid() && old(pool.blob) <= pool.blob && |bodies| == |ps|
    ensures AllValid(ps) && |pool.blob| <= U32_MAX ==> BodiesHold(bodies, ps, pool.blob)
  {
    hide SegmentHolds, ValidData, CifpCodec.CountsFit;
    bodies := [];
    for i := 0 to |ps|
      invariant pool.Valid() && old(pool.blob) <= pool.blob && |bodies| == i
      invariant AllValid(ps) && |pool.blob| <= U32_MAX ==> BodiesHold(bodies, ps, pool.blob)
    {
      ghost var before := pool.blob;
      var body := SerializeSegment(ps[i].1, pool);
      if AllValid(ps) && |pool.blob| <= U32_MAX {
        BodiesGrow(bodies, ps, before, pool.blob);
      }
      bodies := bodies + [body];
    }
  }

  /** The references name the keys. */
  ghost predicate RefsName(refs: seq<(nat, nat)>, ps: Procedures, pool: Bytes) {
    |refs| <= |ps| && forall i :: 0 <= i < |refs| ==> Resolve(pool, refs[i].0, refs[i].1) == Some(ps[i].0)
  }

  method WriteKeys(ps: Procedures, pool: StringPool) returns (refs: seq<(nat, nat)>)
    requires pool.Valid()
    modifies pool
    ensures pool.Valid() && old(pool.blob) <= pool.blob && |refs| == |ps|
    ensures forall i :: 0 <= i < |refs| ==> refs[i].0 <= U32_MAX && refs[i].1 <= U32_MAX
    ensures |pool.blob| <= U32_MAX ==> RefsName(refs, ps, pool.blob)
  {
    hide Resolve;
    refs := [];
    for i := 0 to |ps|
      invariant pool.Valid() && old(pool.blob) <= pool.blob && |refs| == i
      invariant forall k :: 0 <= k < i ==> refs[k].0 <= U32_MAX && refs[k].1 <= U32_MAX
      invariant |pool.blob| <= U32_MAX ==> RefsName(refs, ps, pool.blob)
    {
      ghost var before := pool.blob;
      var offset, len := pool.Add(ps[i].0);
      if |pool.blob| <= U32_MAX {
        forall k | 0 <= k < i
          ensures Resolve(pool.blob, refs[k].0, refs[k].1) == Some(ps[k].0)
        {
          ResolveGrows(before, pool.blob, refs[k].0, refs[k].1);
        }
      }
      refs := refs + [(offset, len)];
    }
  }

  ghost function Joined(bodies: seq<Bytes>): Bytes {
    if bodies == [] then [] else Joined(bodies[..|bodies| - 1]) + bodies[|bodies| - 1]
  }

  lemma JoinedLast(bodies: seq<Bytes>)
    requires bodies != []
    ensures Joined(bodies) == Joined(bodies[..|bodies| - 1]) + bodies[|bodies| - 1]
  {
  }

  /** A body starts where the ones before it end. */
  lemma {:induction false} JoinedAt(bodies: seq<Bytes>, i: nat)
    requires i < |bodies|
    ensures PieceAt(Joined(bodies), |Joined(bodies[..i])|, bodies[i])
    decreases |bodies|
  {
    hide Joined, PieceAt;
    var n := |bodies| - 1;
    JoinedLast(bodies);
    PiecesOfSum(Joined(bodies[..n]), bodies[n]);
    if i < n {
      assert bodies[..n][..i] == bodies[..i];
      JoinedAt(bodies[..n], i);
      PieceOfPiece(Joined(bodies), 0, Joined(bodies[..n]), |Joined(bodies[..i])|, bodies[i]);
    }
  }

  lemma JoinedNext(bodies: seq<Bytes>, i: nat)
    requires i < |bodies|
    ensures Joined(bodies[..i + 1]) == Joined(bodies[..i]) + bodies[i]
  {
    assert bodies[..i + 1][..i] == bodies[..i];
  }

  /** Where segment i starts, from the section's start. */
  ghost function SegmentAt(bodies: seq<Bytes>, i: nat): nat
    requires i <= |bodies|
  {
    DirectoryPrefixLen(|bodies|) + |Joined(bodies[..i])|
  }

  lemma SegmentIsAt(bodies: seq<Bytes>, i: nat)
    requires i <= |bodies|
    ensures SegmentAt(bodies, i) == DirectoryPrefixLen(|bodies|) + |Joined(bodies[..i])|
  {
  }

  function DirRow(ref: (nat, nat), start: nat, body: Bytes): Row {
    [ref.0, ref.1, start % 0x1_0000_0000_0000_0000, |body| % 0x1_0000_0000, Crc(body)]
  }

  /** The directory, each segment placed behind those before it. */
  ghost predicate DirectoryLists(rows: seq<Row>, refs: seq<(nat, nat)>, bodies: seq<Bytes>) {
    && |rows| <= |refs| == |bodies|
    && forall i :: 0 <= i < |rows| ==>
         rows[i] == DirRow(refs[i], SegmentAt(bodies, i), bodies[i])
  }

  lemma DirRowFits(ref: (nat, nat), start: nat, body: Bytes)
    requires ref.0 <= U32_MAX && ref.1 <= U32_MAX
    ensures RowFits(DIR_ENTRY, DirRow(ref, start, body))
  {
    hide Crc;
    Spans();
  }

  method WriteDirectory(refs: seq<(nat, nat)>, bodies: seq<Bytes>) returns (dir: Bytes, ghost rows: seq<Row>)
    requires |refs| == |bodies| && forall i :: 0 <= i < |refs| ==> refs[i].0 <= U32_MAX && refs[i].1 <= U32_MAX
    ensures |rows| == |refs| && RowsFit(DIR_ENTRY, rows) && dir == Rows(DIR_ENTRY, rows) && DirectoryLists(rows, refs, bodies)
  {
    hide DirRow, Packed, Rows, Span;
    var w := new ByteWriter();
    var running := DirectoryPrefixLen(|bodies|);
    rows := [];
    NoRows(DIR_ENTRY);
    for i := 0 to |refs|
      invariant |rows| == i && RowsFit(DIR_ENTRY, rows) && w.out == Rows(DIR_ENTRY, rows)
      invariant running == SegmentAt(bodies, i)
      invariant DirectoryLists(rows, refs, bodies)
    {
      var row := DirRow(refs[i], running, bodies[i]);
      DirRowFits(refs[i], running, bodies[i]);
      RowHas(DIR_ENTRY, row);
      w.Record(DIR_ENTRY, row);
      AddRow(DIR_ENTRY, rows, row);
      rows := rows + [row];
      running := running + |bodies[i]|;
      JoinedNext(bodies, i);
    }
    dir := w.out;
  }

  /** Where everything in a section is. */
  ghost predicate SectionIs(section: Bytes, pool: Bytes, ps: Procedures, rows: seq<Row>, refs: seq<(nat, nat)>, bodies: seq<Bytes>) {
    && |rows| == |refs| == |bodies| == |ps| <= U32_MAX && RowsFit(DIR_ENTRY, rows)
    && DirectoryLists(rows, refs, bodies) && RefsName(refs, ps, pool) && BodiesHold(bodies, ps, pool) && Sized(bodies)
    && section == Prefix(rows) + Joined(bodies)
  }

  /** No segment is longer than its length field can say. */
  ghost predicate Sized(bodies: seq<Bytes>) {
    forall i :: 0 <= i < |bodies| ==> |bodies[i]| <= U32_MAX
  }

  /** The section stores these procedures. */
  ghost predicate SectionHolds(section: Bytes, pool: Bytes, ps: Procedures) {
    exists rows, refs, bodies :: SectionIs(section, pool, ps, rows, refs, bodies)
  }

  /** Encodes the section; refused keys leave nothing stored. */
  method EncodeSection(ps: Procedures, w: ByteWriter, pool: StringPool)
    returns (count: Option<nat>, ghost section: Bytes, ghost bodies: seq<Bytes>)
    requires pool.Valid()
    modifies w, pool
    ensures pool.Valid() && old(pool.blob) <= pool.blob && w.ok == old(w.ok)
    ensures count.Some? <==> Storable(ps)
    ensures w.out == old(w.out) + section
    ensures count.Some? ==> count.value == |ps| % 0x1_0000_0000
    ensures count.Some? && AllValid(ps) && |pool.blob| <= U32_MAX && |ps| <= U32_MAX && Sized(bodies) ==>
              SectionHolds(section, pool.blob, ps)
  {
    hide Storable, AllValid, BodiesHold, RefsName, DirectoryLists, Rows, Joined, LittleEndian, Span;
    section, bodies := [], [];
    var ok := CheckKeys(ps);
    if !ok {
      assert w.out + [] == w.out;
      return None, section, bodies;
    }
    var written := WriteBodies(ps, pool);
    bodies := written;
    ghost var before := pool.blob;
    var refs := WriteKeys(ps, pool);
    var dir; ghost var rows;
    dir, rows := WriteDirectory(refs, written);
    var sw := new ByteWriter();
    sw.Unsigned(|ps| % 0x1_0000_0000, 4);
    sw.Raw(dir);
    var joined := JoinBodies(written);
    sw.Raw(joined);
    w.Raw(sw.out);
    section := sw.out;
    count := Some(|ps| % 0x1_0000_0000);
    if AllValid(ps) && |pool.blob| <= U32_MAX && |ps| <= U32_MAX && Sized(bodies) {
      BodiesGrow(bodies, ps, before, pool.blob);
      assert [] + LittleEndian(|ps|, 4) == LittleEndian(|ps|, 4);
      assert SectionIs(section, pool.blob, ps, rows, refs, bodies);
    }
  }

  method JoinBodies(bodies: seq<Bytes>) returns (out: Bytes)
    ensures out == Joined(bodies)
  {
    out := [];
    for i := 0 to |bodies|
      invariant out == Joined(bodies[..i])
    {
      JoinedNext(bodies, i);
      out := out + bodies[i];
    }
    assert bodies[..|bodies|] == bodies;
  }

  // ---- The store, end to end ----------------------------------------------------------------------

  /** The archive has an entry with this key. */
  ghost predicate Known(a: CifpArchive, key: Bytes) {
    exists e :: e in a.index && e.key == key
  }

  /** The entry is one of these airports', and holds that airport's data. */
  ghost predicate BelongsTo(a: CifpArchive, ps: Procedures, e: Entry) {
    exists i :: 0 <= i < |ps| && e.key == ps[i].0 && EntryHolds(a, e, ps[i].1)
  }

  /** The archive gives each of these airports its own procedures, and knows no other key. */
  ghost predicate Stores(a: CifpArchive, ps: Procedures) {
    (forall i :: 0 <= i < |ps| ==> Known(a, ps[i].0)) && forall e :: e in a.index ==> BelongsTo(a, ps, e)
  }

  lemma SectionFacts(section: Bytes, pool: Bytes, ps: Procedures, rows: seq<Row>, refs: seq<(nat, nat)>, bodies: seq<Bytes>)
    requires SectionIs(section, pool, ps, rows, refs, bodies)
    ensures |rows| == |refs| == |bodies| == |ps| <= U32_MAX && RowsFit(DIR_ENTRY, rows) && Sized(bodies)
    ensures section == Prefix(rows) + Joined(bodies) && |Prefix(rows)| == DirectoryPrefixLen(|ps|)
  {
    RowsAre24(rows);
    hide Rows, Prefix, LittleEndian, Span, DirectoryLists, RefsName, BodiesHold, Joined;
  }

  /** Each segment lies where its row says, behind the directory. */
  lemma SectionBody(section: Bytes, pool: Bytes, ps: Procedures, rows: seq<Row>, refs: seq<(nat, nat)>, bodies: seq<Bytes>, i: nat)
    requires SectionIs(section, pool, ps, rows, refs, bodies) && i < |ps|
    ensures |bodies| == |ps| && PieceAt(section, SegmentAt(bodies, i), bodies[i])
  {
    hide *;
    SectionFacts(section, pool, ps, rows, refs, bodies);
    SegmentIsAt(bodies, i);
    JoinedAt(bodies, i);
    PiecesOfSum(Prefix(rows), Joined(bodies));
    PieceOfPiece(section, |Prefix(rows)|, Joined(bodies), |Joined(bodies[..i])|, bodies[i]);
  }

  /** What row i says. */
  lemma RowFacts(section: Bytes, pool: Bytes, ps: Procedures, rows: seq<Row>, refs: seq<(nat, nat)>, bodies: seq<Bytes>, i: nat)
    requires SectionIs(section, pool, ps, rows, refs, bodies) && i < |ps|
    ensures |rows| == |bodies| == |ps| && SegmentHolds(bodies[i], pool, ps[i].1)
    ensures TextAt(pool, rows[i], 0) == Some(ps[i].0)
    ensures Low(rows[i], 2) == SegmentAt(bodies, i) % 0x1_0000_0000_0000_0000
    ensures Low(rows[i], 3) == |bodies[i]| <= U32_MAX && Low(rows[i], 4) == Crc(bodies[i])
  {
    hide Crc, Prefix, Joined, SegmentHolds, Resolve, Span;
    assert rows[i] == DirRow(refs[i], SegmentAt(bodies, i), bodies[i]);
  }

  /** A row saying this is accepted, and its entry points at the segment. */
  lemma RowAccepted(row: Row, n: nat, length: nat, offset: nat, pool: Bytes, key: Bytes, at: nat, body: Bytes)
    requires TextAt(pool, row, 0) == Some(key) && Fits8(key) && length <= U64_MAX
    requires Low(row, 2) == at % 0x1_0000_0000_0000_0000 && Low(row, 3) == |body| && Low(row, 4) == Crc(body)
    requires DirectoryPrefixLen(n) <= at && at + |body| <= length
    ensures RowOk(row, n, length, pool) && EntryOf(row, offset, pool) == Entry(key, offset + at, |body|, Crc(body))
  {
    hide TextAt, Low, Crc;
  }

  /** A row of a stored section is accepted, and its entry's bytes are its airport's segment. */
  lemma StoredRow(file: Bytes, offset: nat, section: Bytes, pool: Bytes, ps: Procedures,
                  rows: seq<Row>, refs: seq<(nat, nat)>, bodies: seq<Bytes>, i: nat)
    requires SectionIs(section, pool, ps, rows, refs, bodies) && i < |ps| && |section| <= U64_MAX
    requires PieceAt(file, offset, section) && Fits8(ps[i].0)
    ensures |rows| == |bodies| == |ps| && RowOk(rows[i], |ps|, |section|, pool) && SegmentHolds(bodies[i], pool, ps[i].1)
    ensures EntryOf(rows[i], offset, pool) == Entry(ps[i].0, offset + SegmentAt(bodies, i), |bodies[i]|, Crc(bodies[i]))
    ensures PieceAt(file, offset + SegmentAt(bodies, i), bodies[i])
  {
    hide *;
    SectionBody(section, pool, ps, rows, refs, bodies, i);
    RowFacts(section, pool, ps, rows, refs, bodies, i);
    SegmentIsAt(bodies, i);
    PieceFits(section, SegmentAt(bodies, i), bodies[i]);
    PieceOfPiece(file, offset, section, SegmentAt(bodies, i), bodies[i]);
    RowAccepted(rows[i], |ps|, |section|, offset, pool, ps[i].0, SegmentAt(bodies, i), bodies[i]);
  }

  lemma PieceFits(s: Bytes, at: nat, piece: Bytes)
    requires PieceAt(s, at, piece)
    ensures at + |piece| <= |s|
  {
  }

  /** An entry pointing at a segment that holds the data holds it. */
  lemma ReadsBody(a: CifpArchive, e: Entry, body: Bytes, d: CifpData)
    requires e.len == |body| && e.crc == Crc(body) && PieceAt(a.file, e.offset, body) && SegmentHolds(body, a.pool, d)
    ensures EntryHolds(a, e, d)
  {
    hide SegmentHolds, Crc;
  }

  lemma StoredEntry(a: CifpArchive, offset: nat, section: Bytes, ps: Procedures,
                    rows: seq<Row>, refs: seq<(nat, nat)>, bodies: seq<Bytes>, i: nat)
    requires SectionIs(section, a.pool, ps, rows, refs, bodies) && i < |ps| && |section| <= U64_MAX
    requires PieceAt(a.file, offset, section) && Fits8(ps[i].0)
    ensures |rows| == |ps|
    ensures EntryOf(rows[i], offset, a.pool).key == ps[i].0 && EntryHolds(a, EntryOf(rows[i], offset, a.pool), ps[i].1)
  {
    hide *;
    StoredRow(a.file, offset, section, a.pool, ps, rows, refs, bodies, i);
    ReadsBody(a, EntryOf(rows[i], offset, a.pool), bodies[i], ps[i].1);
  }

  /** The checksum stored beside the section is over its first bytes. */
  lemma StoredPrefix(section: Bytes, pool: Bytes, ps: Procedures, rows: seq<Row>, refs: seq<(nat, nat)>, bodies: seq<Bytes>)
    requires SectionIs(section, pool, ps, rows, refs, bodies)
    ensures RowsFit(DIR_ENTRY, rows) && DirectoryPrefixLen(|ps|) <= |section|
    ensures section[..DirectoryPrefixLen(|ps|)] == Prefix(rows)
  {
    SectionFacts(section, pool, ps, rows, refs, bodies);
    hide SectionIs, Prefix, Joined, Span, RowFits;
  }

  /** A stored section's directory is where the opener looks for it. */
  lemma StoredDirectory(file: Bytes, offset: nat, section: Bytes, pool: Bytes, ps: Procedures,
                        rows: seq<Row>, refs: seq<(nat, nat)>, bodies: seq<Bytes>)
    requires SectionIs(section, pool, ps, rows, refs, bodies) && PieceAt(file, offset, section)
    ensures |rows| == |ps| && DirectoryPrefixLen(|ps|) <= |section|
    ensures DirectoryChecks(file, offset, |section|, Crc(section[..DirectoryPrefixLen(|ps|)]), rows)
  {
    hide *;
    SectionFacts(section, pool, ps, rows, refs, bodies);
    StoredPrefix(section, pool, ps, rows, refs, bodies);
    PiecesOfSum(Prefix(rows), Joined(bodies));
    PieceOfPiece(file, offset, section, 0, Prefix(rows));
    ChecksOut(file, offset, |section|, rows);
  }

  lemma ChecksOut(file: Bytes, offset: nat, length: nat, rows: seq<Row>)
    requires |rows| <= U32_MAX && RowsFit(DIR_ENTRY, rows) && PieceAt(file, offset, Prefix(rows))
    requires length >= DirectoryPrefixLen(|rows|)
    ensures DirectoryChecks(file, offset, length, Crc(Prefix(rows)), rows)
  {
    hide Crc, Prefix, PieceAt, Span;
  }

  lemma OpensWith(file: Bytes, offset: nat, length: nat, crc: nat, pool: Bytes, rows: seq<Row>)
    requires DirectoryChecks(file, offset, length, crc, rows)
    requires forall i :: 0 <= i < |rows| ==> RowOk(rows[i], |rows|, length, pool)
    ensures Opens(file, offset, length, crc, pool, rows)
    ensures forall x :: Opens(file, offset, length, crc, pool, x) ==> x == rows
  {
    hide Crc, RowOk, DirectoryIs, Prefix, Span;
    forall x | Opens(file, offset, length, crc, pool, x)
      ensures x == rows
    {
      OneDirectory(file, offset, x, rows);
    }
  }

  /** A stored section opens, into an archive that gives back what was stored. */
  lemma StoredSectionOpens(file: Bytes, offset: nat, section: Bytes, pool: Bytes, ps: Procedures, crc: nat, r: Option<CifpArchive>)
    requires SectionHolds(section, pool, ps) && |section| <= U64_MAX && Storable(ps) && PieceAt(file, offset, section)
    requires DirectoryPrefixLen(|ps|) <= |section| ==> crc == Crc(section[..DirectoryPrefixLen(|ps|)])
    requires SectionAnswers(file, offset, |section|, crc, pool, r)
    ensures r.Some? && Stores(r.value, ps)
  {
    var rows, refs, bodies :| SectionIs(section, pool, ps, rows, refs, bodies);
    StoredDirectory(file, offset, section, pool, ps, rows, refs, bodies);
    KeysFit(ps);
    hide Crc, RowOk, EntryOf, SectionIs, SectionHolds, Opened, Stores, Opens, DirectoryChecks, Storable, PieceAt, Fits8;
    forall i | 0 <= i < |ps|
      ensures RowOk(rows[i], |ps|, |section|, pool)
    {
      StoredRow(file, offset, section, pool, ps, rows, refs, bodies, i);
    }
    OpensWith(file, offset, |section|, crc, pool, rows);
    OpenedIs(file, offset, pool, rows, r.value);
    StoredArchive(r.value, offset, section, ps, rows, refs, bodies);
  }

  lemma KeysFit(ps: Procedures)
    requires Storable(ps)
    ensures forall i :: 0 <= i < |ps| ==> Fits8(ps[i].0)
  {
  }

  lemma OpenedIs(file: Bytes, offset: nat, pool: Bytes, rows: seq<Row>, a: CifpArchive)
    requires Opened(a, file, offset, pool, rows)
    ensures a.file == file && a.pool == pool
    ensures forall e :: e in a.index <==> exists i :: 0 <= i < |rows| && e == EntryOf(rows[i], offset, pool)
  {
    hide EntryOf, SortedIndex;
  }

  lemma StoredArchive(a: CifpArchive, offset: nat, section: Bytes, ps: Procedures,
                      rows: seq<Row>, refs: seq<(nat, nat)>, bodies: seq<Bytes>)
    requires SectionIs(section, a.pool, ps, rows, refs, bodies) && |section| <= U64_MAX && PieceAt(a.file, offset, section)
    requires |rows| == |ps| && forall i :: 0 <= i < |ps| ==> Fits8(ps[i].0)
    requires forall e :: e in a.index <==> exists i :: 0 <= i < |rows| && e == EntryOf(rows[i], offset, a.pool)
    ensures Stores(a, ps)
  {
    hide Crc, EntryOf, SectionIs, EntryHolds, PieceAt, Fits8;
    forall i | 0 <= i < |ps|
      ensures Known(a, ps[i].0)
    {
      StoredEntry(a, offset, section, ps, rows, refs, bodies, i);
      assert EntryOf(rows[i], offset, a.pool) in a.index;
    }
    forall e | e in a.index
      ensures BelongsTo(a, ps, e)
    {
      var i :| 0 <= i < |rows| && e == EntryOf(rows[i], offset, a.pool);
      StoredEntry(a, offset, section, ps, rows, refs, bodies, i);
    }
  }

  /** Whatever the archive reads for a stored airport's key is that airport's data. */
  lemma StoredData(a: CifpArchive, ps: Procedures, i: nat, e: Entry, d: CifpData)
    requires Stores(a, ps) && DistinctKeys(ps) && i < |ps| && e in a.index && e.key == ps[i].0
    ensures EntryHolds(a, e, ps[i].1) && (EntryHolds(a, e, d) ==> d == ps[i].1)
  {
    hide EntryHolds;
    var j := KnownKey(a, ps, e);
    assert i == j;
    if EntryHolds(a, e, d) {
      OneHeld(a, e, d, ps[i].1);
    }
  }

  lemma KnownKey(a: CifpArchive, ps: Procedures, e: Entry) returns (i: nat)
    requires Stores(a, ps) && e in a.index
    ensures i < |ps| && e.key == ps[i].0 && EntryHolds(a, e, ps[i].1)
  {
    hide EntryHolds, Known;
    assert BelongsTo(a, ps, e);
    i :| 0 <= i < |ps| && e.key == ps[i].0 && EntryHolds(a, e, ps[i].1);
  }

  lemma KeyIsThere(a: CifpArchive, ps: Procedures, i: nat) returns (e: Entry)
    requires Stores(a, ps) && i < |ps|
    ensures e in a.index && e.key == ps[i].0
  {
    hide BelongsTo;
    assert Known(a, ps[i].0);
    e :| e in a.index && e.key == ps[i].0;
  }

  /** Fetching a stored airport gives exactly its procedures. */
  lemma FetchIsExact(a: CifpArchive, ps: Procedures, i: nat, r: Fetched)
    requires Stores(a, ps) && DistinctKeys(ps) && i < |ps| && FetchAnswers(a, ps[i].0, r)
    ensures r == Found(ps[i].1)
  {
    hide EntryHolds, DistinctKeys, Stores;
    var here := KeyIsThere(a, ps, i);
    forall e | e in a.index && e.key == ps[i].0
      ensures EntryHolds(a, e, ps[i].1) && (r.Found? && EntryHolds(a, e, r.data) ==> r.data == ps[i].1)
    {
      StoredData(a, ps, i, e, if r.Found? then r.data else ps[i].1);
    }
  }

  /** Fetching a key that was not stored gives nothing. */
  lemma FetchOfOthersIsMissing(a: CifpArchive, ps: Procedures, icao: Bytes, r: Fetched)
    requires Stores(a, ps) && FetchAnswers(a, icao, r) && forall i :: 0 <= i < |ps| ==> ps[i].0 != icao
    ensures r == Missing
  {
    hide EntryHolds, Stores;
    forall e | e in a.index
      ensures e.key != icao
    {
      var i := KnownKey(a, ps, e);
    }
  }

  /** Fetching everything gives the same as fetching each. */
  lemma FetchAllAgrees(a: CifpArchive, ps: Procedures, r: Option<map<Bytes, CifpData>>)
    requires Stores(a, ps) && DistinctKeys(ps) && FetchAllAnswers(a, r)
    ensures r.Some?
    ensures forall i :: 0 <= i < |ps| ==> ps[i].0 in r.value && r.value[ps[i].0] == ps[i].1
    ensures forall key :: key in r.value ==> exists i :: 0 <= i < |ps| && ps[i].0 == key
  {
    AllReads(a, ps, r);
    hide EntryHolds, DistinctKeys, Stores, FetchAllAnswers;
    forall i | 0 <= i < |ps|
      ensures ps[i].0 in r.value && r.value[ps[i].0] == ps[i].1
    {
      var here := KeyIsThere(a, ps, i);
      var e := WhereFrom(a, r, here);
      StoredData(a, ps, i, e, r.value[ps[i].0]);
    }
    NoOtherKey(a, ps, r);
  }

  lemma WhereFrom(a: CifpArchive, r: Option<map<Bytes, CifpData>>, here: Entry) returns (e: Entry)
    requires FetchAllAnswers(a, r) && r.Some? && here in a.index
    ensures here.key in r.value && e in a.index && e.key == here.key && EntryHolds(a, e, r.value[here.key])
  {
    hide EntryHolds;
    e :| e in a.index && e.key == here.key && EntryHolds(a, e, r.value[here.key]);
  }

  lemma NoOtherKey(a: CifpArchive, ps: Procedures, r: Option<map<Bytes, CifpData>>)
    requires Stores(a, ps) && FetchAllAnswers(a, r) && r.Some?
    ensures forall key :: key in r.value ==> exists i :: 0 <= i < |ps| && ps[i].0 == key
  {
    hide EntryHolds, Stores;
    forall key | key in r.value
      ensures exists i :: 0 <= i < |ps| && ps[i].0 == key
    {
      var e :| e in a.index && e.key == key && EntryHolds(a, e, r.value[key]);
      var i := KnownKey(a, ps, e);
    }
  }

  lemma AllReads(a: CifpArchive, ps: Procedures, r: Option<map<Bytes, CifpData>>)
    requires Stores(a, ps) && DistinctKeys(ps) && FetchAllAnswers(a, r)
    ensures r.Some?
  {
    hide EntryHolds, DistinctKeys, Stores;
    forall e | e in a.index
      ensures exists d :: EntryHolds(a, e, d)
    {
      var i := KnownKey(a, ps, e);
      StoredData(a, ps, i, e, ps[i].1);
    }
  }
}
