/** The cache file: building it from a graph, procedures and details, opening it, and listing it in a catalogue. */
module Containers {
  import opened Numbers
  import opened ByteIO
  import opened Pieces
  import opened Groups
  import opened GraphWire
  import opened GraphCodec
  import opened GraphEncoding
  import opened CifpSegments
  import opened CifpCodec
  import opened CifpArchives
  import opened CifpStore
  import opened Fronts

  const GRAPH := 1
  const CIFP := 2
  const DETAIL := 3

  /** The catalogue reads no more of a file than this. */
  const MAX_HEADER_PREFIX := 8192

  datatype Capabilities = Capabilities(airwayDirection: bool, altitudeBands: bool, moraGrid: bool, msaSectors: bool)

  datatype Header = Header(cycle: u32, programVersion: Bytes, sourceLoader: Bytes, dataDir: Bytes, capabilities: Capabilities)

  datatype UnifiedData = UnifiedData(header: Header, graph: GraphSnapshot, cifp: Option<CifpArchive>, detail: Option<Bytes>)

  datatype OpenResult = Corrupt | FormatMismatch | Ready(data: UnifiedData)

  // ---- What the front says ------------------------------------------------------------------------

  function HeaderOf(f: Front): Header {
    Header(Fit32(Low(f.head, 1)), f.version, f.loader, f.dir,
           Capabilities(Low(f.tail, 0) != 0, Low(f.tail, 1) != 0, Low(f.tail, 2) != 0, Low(f.tail, 3) != 0))
  }

  function PoolLength(f: Front): nat { Low(f.tail, 4) }

  function PoolCrc(f: Front): nat { Low(f.tail, 5) }

  function TypeOf(row: Row): nat { Low(row, 0) }

  function CrcOf(row: Row): nat { Low(row, 1) }

  function OffsetOf(row: Row): nat { Low(row, 2) }

  function LengthOf(row: Row): nat { Low(row, 3) }

  predicate Present(row: Row) { OffsetOf(row) != 0 || LengthOf(row) != 0 }

  predicate InFile(row: Row, size: nat) { Present(row) ==> OffsetOf(row) + LengthOf(row) <= size }

  /** Every section type is known and appears once. */
  predicate EachOnce(table: seq<Row>) {
    && (forall i :: 0 <= i < |table| ==> GRAPH <= TypeOf(table[i]) <= DETAIL)
    && forall i, j :: 0 <= i < j < |table| ==> TypeOf(table[i]) != TypeOf(table[j])
  }

  /** The row of a section. */
  function Slot(table: seq<Row>, t: nat): (row: Row)
    ensures row == [] || row in table
  {
    if table == [] then [] else
      var last := table[|table| - 1];
      if TypeOf(last) == t then last else Slot(table[..|table| - 1], t)
  }

  function Slice(file: Bytes, at: nat, n: nat): Bytes {
    if at + n <= |file| then file[at..at + n] else []
  }

  function Body(file: Bytes, row: Row): Bytes { Slice(file, OffsetOf(row), LengthOf(row)) }

  function PoolAt(f: Front): nat { FrontLength(f) + 4 }

  function PoolOf(file: Bytes, f: Front): Bytes { Slice(file, PoolAt(f), PoolLength(f)) }

  /** The front is there and its checksum follows it. */
  ghost predicate FrontChecks(file: Bytes, f: Front) {
    IsFront(file, f) && PieceAt(file, FrontLength(f), LittleEndian(Crc(FrontBytes(f)), 4))
  }

  /** Everything but the section bodies is in order. */
  ghost predicate Framed(file: Bytes, f: Front) {
    && FrontChecks(file, f) && Low(f.head, 0) == SECTION_COUNT
    && (forall i :: 0 <= i < |f.table| ==> InFile(f.table[i], |file|))
    && PoolAt(f) + PoolLength(f) <= |file| && Crc(PoolOf(file, f)) == PoolCrc(f)
    && EachOnce(f.table) && Present(Slot(f.table, GRAPH))
  }

  /** The section's bytes match their checksum. */
  ghost predicate BodyChecks(file: Bytes, row: Row) {
    Crc(Body(file, row)) == CrcOf(row)
  }

  ghost predicate CifpOpens(file: Bytes, row: Row, pool: Bytes) {
    exists rows :: Opens(file, OffsetOf(row), LengthOf(row), CrcOf(row), pool, rows)
  }

  /** Every section there is reads. */
  ghost predicate Readable(file: Bytes, f: Front) {
    && BodyChecks(file, Slot(f.table, GRAPH)) && (exists s :: Holds(Body(file, Slot(f.table, GRAPH)), PoolOf(file, f), s))
    && (Present(Slot(f.table, DETAIL)) ==> BodyChecks(file, Slot(f.table, DETAIL)))
    && (Present(Slot(f.table, CIFP)) ==> CifpOpens(file, Slot(f.table, CIFP), PoolOf(file, f)))
  }

  ghost predicate CifpIs(file: Bytes, row: Row, pool: Bytes, cifp: Option<CifpArchive>) {
    if Present(row) then
      cifp.Some? && Indexed(cifp.value) && SectionAnswers(file, OffsetOf(row), LengthOf(row), CrcOf(row), pool, cifp)
    else cifp.None?
  }

  /** What was opened is what the file holds. */
  ghost predicate DataIs(file: Bytes, f: Front, d: UnifiedData) {
    && d.header == HeaderOf(f) && Holds(Body(file, Slot(f.table, GRAPH)), PoolOf(file, f), d.graph)
    && d.detail == (if Present(Slot(f.table, DETAIL)) then Some(Body(file, Slot(f.table, DETAIL))) else None)
    && CifpIs(file, Slot(f.table, CIFP), PoolOf(file, f), d.cifp)
  }

  /** What opening a file promises. */
  ghost predicate OpenAnswers(file: Bytes, r: OpenResult) {
    && (r.Ready? ==> exists f :: Framed(file, f) && Readable(file, f) && DataIs(file, f, r.data))
    && (r.Corrupt? ==> forall f :: Framed(file, f) ==> !Readable(file, f))
    && (r.FormatMismatch? <==> OfOtherVersion(file))
  }

  // ---- Opening ------------------------------------------------------------------------------------------

  /** Checks the rows against the file's size. */
  method CheckRows(table: seq<Row>, size: nat) returns (ok: bool)
    ensures ok <==> forall i :: 0 <= i < |table| ==> InFile(table[i], size)
  {
    hide Low;
    for i := 0 to |table|
      invariant forall k :: 0 <= k < i ==> InFile(table[k], size)
    {
      var row := table[i];
      if OffsetOf(row) != 0 || LengthOf(row) != 0 {
        if OffsetOf(row) > size || LengthOf(row) > size - OffsetOf(row) {
          return false;
        }
      }
    }
    ok := true;
  }

  /** What a slot holds after the first i rows: the row of its type, if one has come. */
  ghost predicate SlotHolds(table: seq<Row>, i: nat, t: nat, slot: Option<Row>)
    requires i <= |table|
  {
    && (slot.Some? <==> exists k :: 0 <= k < i && TypeOf(table[k]) == t)
    && (if slot.Some? then slot.value else []) == Slot(table[..i], t)
  }

  lemma SlotNext(table: seq<Row>, i: nat, t: nat, slot: Option<Row>)
    requires i < |table| && SlotHolds(table, i, t, slot)
    ensures SlotHolds(table, i + 1, t, if TypeOf(table[i]) == t then Some(table[i]) else slot)
  {
    hide Low, TypeOf;
    assert table[..i + 1][..i] == table[..i];
  }

  /** Maps section types to rows; an unknown or repeated type refuses the file. */
  method MapSections(table: seq<Row>) returns (ok: bool, graph: Row, cifp: Row, detail: Row)
    ensures ok <==> EachOnce(table)
    ensures ok ==> graph == Slot(table, GRAPH) && cifp == Slot(table, CIFP) && detail == Slot(table, DETAIL)
  {
    hide Low, TypeOf, Slot, SlotHolds, ThreeHold;
    ok, graph, cifp, detail := true, [], [], [];
    var slots: seq<Option<Row>> := [None, None, None];
    NoSlots(table);
    for i := 0 to |table|
      invariant ThreeHold(table, i, slots)
      invariant forall k :: 0 <= k < i ==> GRAPH <= TypeOf(table[k]) <= DETAIL
      invariant forall j, k :: 0 <= j < k < i ==> TypeOf(table[j]) != TypeOf(table[k])
    {
      var t := TypeOf(table[i]);
      if t != GRAPH && t != CIFP && t != DETAIL {
        return false, graph, cifp, detail;
      }
      SlotSeen(table, i, slots, t);
      if slots[t - 1].Some? {
        return false, graph, cifp, detail;
      }
      ThreeNext(table, i, slots, t);
      slots := slots[t - 1 := Some(table[i])];
    }
    AllSlots(table, slots);
    graph, cifp, detail := RowOf(slots[0]), RowOf(slots[1]), RowOf(slots[2]);
  }

  function RowOf(slot: Option<Row>): Row {
    if slot.Some? then slot.value else []
  }

  ghost predicate ThreeHold(table: seq<Row>, i: nat, slots: seq<Option<Row>>)
    requires i <= |table|
  {
    && |slots| == SECTION_COUNT && SlotHolds(table, i, GRAPH, slots[0]) && SlotHolds(table, i, CIFP, slots[1])
    && SlotHolds(table, i, DETAIL, slots[2])
  }

  lemma SlotSeen(table: seq<Row>, i: nat, slots: seq<Option<Row>>, t: nat)
    requires i <= |table| && ThreeHold(table, i, slots) && GRAPH <= t <= DETAIL
    ensures |slots| == SECTION_COUNT && (slots[t - 1].Some? <==> exists k :: 0 <= k < i && TypeOf(table[k]) == t)
  {
    hide TypeOf, Slot;
  }

  lemma ThreeNext(table: seq<Row>, i: nat, slots: seq<Option<Row>>, t: nat)
    requires i < |table| && ThreeHold(table, i, slots) && TypeOf(table[i]) == t && GRAPH <= t <= DETAIL
    ensures ThreeHold(table, i + 1, slots[t - 1 := Some(table[i])])
  {
    hide TypeOf, SlotHolds;
    SlotNext(table, i, GRAPH, slots[0]);
    SlotNext(table, i, CIFP, slots[1]);
    SlotNext(table, i, DETAIL, slots[2]);
  }

  lemma AllSlots(table: seq<Row>, slots: seq<Option<Row>>)
    requires ThreeHold(table, |table|, slots)
    ensures |slots| == SECTION_COUNT
    ensures RowOf(slots[0]) == Slot(table, GRAPH) && RowOf(slots[1]) == Slot(table, CIFP) && RowOf(slots[2]) == Slot(table, DETAIL)
  {
    hide TypeOf, Slot;
    assert table[..|table|] == table;
  }

  lemma NoSlots(table: seq<Row>)
    ensures ThreeHold(table, 0, [None, None, None])
  {
  }

  /** The checksum read behind the front is the right one when it is the front's. */
  lemma ChecksumRead(file: Bytes, f: Front)
    requires IsFront(file, f)
    ensures FrontLength(f) <= |file| && file[..FrontLength(f)] == FrontBytes(f)
    ensures FrontChecks(file, f) <==>
              FrontLength(f) + 4 <= |file| && Value(file[FrontLength(f)..FrontLength(f) + 4]) == Crc(FrontBytes(f))
  {
    hide IsFront, FrontBytes, FrontFits, FrontLength, LittleEndian, Value, Crc, PieceAt;
    FrontLies(file, f);
    PieceIs(file, 0, FrontBytes(f), FrontLength(f));
    CountPiece(file, FrontLength(f), Crc(FrontBytes(f)));
  }

  lemma FrontLies(file: Bytes, f: Front)
    requires IsFront(file, f)
    ensures FrontFits(f) && PieceAt(file, 0, FrontBytes(f)) && |FrontBytes(f)| == FrontLength(f)
  {
    hide FrontFits, FrontBytes, FrontLength, PieceAt;
    FrontSizes(f);
  }

  /** Reads the front and its checksum. */
  method ReadChecked(cur: FileCursor) returns (r: FrontResult)
    requires cur.Valid() && cur.ok && cur.pos == 0
    modifies cur
    ensures cur.Valid() && (r.OtherVersion? <==> OfOtherVersion(cur.file))
    ensures r.Read? ==> FrontChecks(cur.file, r.front) && forall f :: FrontChecks(cur.file, f) ==> f == r.front
    ensures r.Read? ==> cur.ok && cur.pos == PoolAt(r.front)
    ensures r.Damaged? ==> forall f :: !FrontChecks(cur.file, f)
  {
    hide IsFront, PieceAt, FrontBytes, LittleEndian, Value, Crc, FrontLength, OfOtherVersion;
    ghost var file := cur.file;
    r := ReadFront(cur);
    if !r.Read? {
      return;
    }
    ChecksumRead(file, r.front);
    var prefix := cur.file[..cur.pos];
    var stored := cur.Read(4);
    if stored.None? {
      return Damaged;
    }
    var reader := new ByteReader(stored.value);
    var crc := reader.Unsigned(4);
    assert stored.value[0..4] == file[FrontLength(r.front)..FrontLength(r.front) + 4];
    if Crc(prefix) != crc {
      return Damaged;
    }
  }

  /** Reads everything before the section bodies. */
  method ReadFrame(file: Bytes) returns (r: FrontResult)
    ensures r.Read? ==> Framed(file, r.front) && forall f :: FrontChecks(file, f) ==> f == r.front
    ensures r.Damaged? ==> forall f :: !Framed(file, f)
    ensures r.OtherVersion? <==> OfOtherVersion(file)
  {
    hide FrontChecks, EachOnce, Present, Crc, InFile, FrontLength, Low, OfOtherVersion, Slot;
    var cur := new FileCursor(file);
    r := ReadChecked(cur);
    if !r.Read? {
      return;
    }
    var f := r.front;
    if Low(f.head, 0) != SECTION_COUNT {
      return Damaged;
    }
    var inFile := CheckRows(f.table, |file|);
    if !inFile {
      return Damaged;
    }
    var pool := cur.Read(PoolLength(f));
    if pool.None? || Crc(pool.value) != PoolCrc(f) {
      return Damaged;
    }
    var known, graph, cifp, detail := MapSections(f.table);
    if !known || !Present(graph) {
      return Damaged;
    }
  }

  /** Reads the graph, checks the details, and opens the procedures. */
  method OpenSections(file: Bytes, f: Front) returns (d: Option<UnifiedData>)
    requires Framed(file, f)
    ensures d.Some? ==> Readable(file, f) && DataIs(file, f, d.value)
    ensures d.None? ==> !Readable(file, f)
  {
    hide Framed, Holds, Crc, Present, HeaderOf, PoolOf, Body, Slot, CrcOf, OffsetOf, LengthOf, Opens, Opened, Indexed;
    var pool := PoolOf(file, f);
    var graphRow, cifpRow, detailRow := Slot(f.table, GRAPH), Slot(f.table, CIFP), Slot(f.table, DETAIL);
    var body := Body(file, graphRow);
    if Crc(body) != CrcOf(graphRow) {
      return None;
    }
    var graph := GraphCodec.Decode(body, pool);
    if graph.None? {
      return None;
    }
    var detail: Option<Bytes> := None;
    if Present(detailRow) {
      detail := Some(Body(file, detailRow));
      if Crc(detail.value) != CrcOf(detailRow) {
        return None;
      }
    }
    var cifp: Option<CifpArchive> := None;
    if Present(cifpRow) {
      cifp := OpenSection(file, OffsetOf(cifpRow), LengthOf(cifpRow), CrcOf(cifpRow), pool);
      if cifp.None? {
        return None;
      }
    }
    d := Some(UnifiedData(HeaderOf(f), graph.value, cifp, detail));
  }

  /** Opens a cache file: everything it holds, or the reason it cannot be used. */
  method Open(file: Bytes) returns (r: OpenResult)
    ensures OpenAnswers(file, r)
  {
    hide FrontChecks, Readable, DataIs, OfOtherVersion;
    var frame := ReadFrame(file);
    match frame
    case Damaged =>
      r := OpenResult.Corrupt;
    case OtherVersion =>
      r := FormatMismatch;
    case Read(f) =>
      var d := OpenSections(file, f);
      r := if d.Some? then Ready(d.value) else OpenResult.Corrupt;
      assert forall g :: Framed(file, g) ==> g == f;
  }

  // ---- The catalogue -------------------------------------------------------------------------------------

  function HeaderPrefix(file: Bytes): Bytes {
    if |file| <= MAX_HEADER_PREFIX then file else file[..MAX_HEADER_PREFIX]
  }

  /** What listing a file promises: its header, when the front checks out within the part of the file read. */
  ghost predicate HeaderAnswers(file: Bytes, r: Option<Header>) {
    && (r.Some? ==> exists f :: FrontChecks(HeaderPrefix(file), f) && r.value == HeaderOf(f))
    && (r.None? ==> forall f :: !FrontChecks(HeaderPrefix(file), f))
  }

  /** Reads only the header, from one bounded read. */
  method ReadHeader(file: Bytes) returns (r: Option<Header>)
    ensures HeaderAnswers(file, r)
  {
    hide FrontChecks, HeaderOf, OfOtherVersion, HeaderPrefix;
    var cur := new FileCursor(HeaderPrefix(file));
    var front := ReadChecked(cur);
    if front.OtherVersion? {
      OtherIsNoFront(HeaderPrefix(file));
    }
    r := if front.Read? then Some(HeaderOf(front.front)) else None;
  }

  /** A file of another version has no front of this one. */
  lemma OtherIsNoFront(file: Bytes)
    ensures OfOtherVersion(file) ==> forall f :: !FrontChecks(file, f)
  {
    SignatureIs(file);
    FrontIsSigned(file);
    hide IsFront, PieceAt, Value;
  }

  /** How many bytes a header takes, its checksum and the section table included. */
  function HeaderLength(h: Header): nat {
    116 + |h.programVersion| + |h.sourceLoader| + |h.dataDir|
  }

  /** The front checks out within the part read when it checks out in the file and lies within the part. */
  lemma ChecksWithin(file: Bytes, f: Front)
    ensures FrontChecks(HeaderPrefix(file), f) <==> FrontChecks(file, f) && FrontLength(f) + 4 <= MAX_HEADER_PREFIX
  {
    if FrontFits(f) {
      FrontSizes(f);
      hide FrontBytes, FrontFits, LittleEndian, Crc, PieceAt, FrontLength;
      var stored := LittleEndian(Crc(FrontBytes(f)), 4);
      if |file| > MAX_HEADER_PREFIX {
        PieceOfFront(file, MAX_HEADER_PREFIX, 0, FrontBytes(f));
        PieceOfFront(file, MAX_HEADER_PREFIX, FrontLength(f), stored);
      } else {
        StaysInside(file, FrontLength(f), stored);
      }
    }
  }

  lemma StaysInside(s: Bytes, at: nat, piece: Bytes)
    ensures PieceAt(s, at, piece) ==> at + |piece| <= |s|
  {
  }

  /** A file whose front checks out is listed exactly when the front fits the catalogue's one read. */
  lemma ListedWhenFrontFits(file: Bytes, f: Front, r: Option<Header>)
    requires FrontChecks(file, f) && HeaderAnswers(file, r)
    ensures r == if HeaderLength(HeaderOf(f)) <= MAX_HEADER_PREFIX then Some(HeaderOf(f)) else None
  {
    hide FrontChecks, HeaderPrefix;
    ChecksWithin(file, f);
    if r.Some? {
      var g :| FrontChecks(HeaderPrefix(file), g) && r.value == HeaderOf(g);
      ChecksWithin(file, g);
      OneChecked(file, f, g);
    }
  }

  /** A cache that opens is listed, with the same header, exactly when its header fits the catalogue's one read. */
  lemma ListedWhenShort(file: Bytes, d: UnifiedData, r: Option<Header>)
    requires OpenAnswers(file, Ready(d)) && HeaderAnswers(file, r)
    ensures r == if HeaderLength(d.header) <= MAX_HEADER_PREFIX then Some(d.header) else None
  {
    hide Framed, Readable, FrontChecks, HeaderPrefix;
    var f :| Framed(file, f) && Readable(file, f) && DataIs(file, f, d);
    FramedIsChecked(file, f);
    ListedWhenFrontFits(file, f, r);
  }

  lemma OneChecked(file: Bytes, f: Front, g: Front)
    requires FrontChecks(file, f) && FrontChecks(file, g)
    ensures f == g
  {
    hide IsFront;
    OneFront(file, f, g);
  }

  lemma FramedIsChecked(file: Bytes, f: Front)
    requires Framed(file, f)
    ensures FrontChecks(file, f)
  {
    hide FrontChecks;
  }
}
