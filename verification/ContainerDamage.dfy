/** Damage to up to four consecutive bytes of a checksummed region never passes for data. */
module ContainerDamage {
  import opened Numbers
  import opened ByteIO
  import opened Pieces
  import opened Checksums
  import opened GraphCodec
  import opened CifpSegments
  import opened CifpArchives
  import opened Fronts
  import opened Containers

  /** The two files differ, and only within four consecutive bytes of this region. */
  ghost predicate HurtWithin(file: Bytes, hurt: Bytes, lo: nat, n: nat, at: nat) {
    && |file| == |hurt| && file != hurt && lo + n <= |file|
    && forall k :: 0 <= k < |file| && file[k] != hurt[k] ==> at <= k < at + 4 && lo <= k < lo + n
  }

  lemma CrcCatches(a: Bytes, b: Bytes, at: nat)
    requires |a| == |b| && a != b && forall k :: 0 <= k < |a| && a[k] != b[k] ==> at <= k < at + 4
    ensures Crc(a) != Crc(b)
  {
    OctetsDiffer(a, b);
    hide Checksum, Octets, Number;
    FourByteErrorsAreCaught(Octets(a), Octets(b), at);
    NumbersDiffer(Checksum(Octets(a)), Checksum(Octets(b)));
  }

  function WordOf(n: nat): Word
    requires n <= U32_MAX
  {
    n as Word
  }

  lemma WordBack(w: Word)
    ensures WordOf(Number(w)) == w
  {
  }

  lemma NumbersDiffer(x: Word, y: Word)
    requires x != y
    ensures Number(x) != Number(y)
  {
    hide *;
    WordBack(x);
    WordBack(y);
  }

  /** Bytes and their octets differ at the same places. */
  lemma OctetsDiffer(a: Bytes, b: Bytes)
    requires |a| == |b|
    ensures forall k :: 0 <= k < |a| ==> (Octets(a)[k] == Octets(b)[k] <==> a[k] == b[k])
    ensures Octets(a) == Octets(b) ==> a == b
  {
    forall k | 0 <= k < |a|
      ensures Octets(a)[k] == Octets(b)[k] <==> a[k] == b[k]
    {
      SameOctet(a[k], b[k]);
    }
  }

  lemma SameOctet(x: byte, y: byte)
    ensures x as bv8 == y as bv8 <==> x == y
  {
    ByteBack(x);
    ByteBack(y);
  }

  lemma ByteBack(x: byte)
    ensures (x as bv8) as byte == x
  {
    if x < 64 {
      if x < 16 {} else if x < 32 {} else if x < 48 {} else {}
    } else if x < 128 {
      if x < 80 {} else if x < 96 {} else if x < 112 {} else {}
    } else if x < 192 {
      if x < 160 {} else {}
    } else if x < 224 {} else {}
  }

  /** A hurt region no longer has the checksum it had. */
  lemma RegionCaught(file: Bytes, hurt: Bytes, lo: nat, n: nat, at: nat)
    requires HurtWithin(file, hurt, lo, n, at)
    ensures Crc(Slice(file, lo, n)) != Crc(Slice(hurt, lo, n))
  {
    hide Crc;
    var a, b := file[lo..lo + n], hurt[lo..lo + n];
    var k :| 0 <= k < |file| && file[k] != hurt[k];
    assert a[k - lo] != b[k - lo];
    if at >= lo {
      CrcCatches(a, b, at - lo);
    } else {
      CrcCatches(a, b, 0);
    }
  }

  lemma Untouched(file: Bytes, hurt: Bytes, lo: nat, n: nat, at: nat, from: nat, piece: Bytes)
    requires HurtWithin(file, hurt, lo, n, at) && PieceAt(file, from, piece) && from + |piece| <= lo
    ensures PieceAt(hurt, from, piece)
  {
  }

  /** Damage behind the front leaves the front as it was. */
  lemma FrontSurvives(file: Bytes, hurt: Bytes, f: Front, lo: nat, n: nat, at: nat)
    requires FrontChecks(file, f) && HurtWithin(file, hurt, lo, n, at) && PoolAt(f) <= lo
    ensures FrontChecks(hurt, f)
  {
    FrontLies(file, f);
    hide FrontFits, FrontBytes, FrontLength, LittleEndian, Crc, PieceAt, HurtWithin;
    Untouched(file, hurt, lo, n, at, 0, FrontBytes(f));
    Untouched(file, hurt, lo, n, at, FrontLength(f), LittleEndian(Crc(FrontBytes(f)), 4));
  }

  /** The regions that opening checks at once; the details only if there are any. */
  datatype Region = ThePool | TheGraph | TheDetails

  function RegionAt(f: Front, g: Region): nat {
    match g
    case ThePool => PoolAt(f)
    case TheGraph => OffsetOf(Slot(f.table, GRAPH))
    case TheDetails => OffsetOf(Slot(f.table, DETAIL))
  }

  function RegionLength(f: Front, g: Region): nat {
    match g
    case ThePool => PoolLength(f)
    case TheGraph => LengthOf(Slot(f.table, GRAPH))
    case TheDetails => LengthOf(Slot(f.table, DETAIL))
  }

  function RegionCrc(f: Front, g: Region): nat {
    match g
    case ThePool => PoolCrc(f)
    case TheGraph => CrcOf(Slot(f.table, GRAPH))
    case TheDetails => CrcOf(Slot(f.table, DETAIL))
  }

  lemma ChecksumHeld(file: Bytes, f: Front, g: Region)
    requires Framed(file, f) && Readable(file, f) && (g.TheDetails? ==> Present(Slot(f.table, DETAIL)))
    ensures Crc(Slice(file, RegionAt(f, g), RegionLength(f, g))) == RegionCrc(f, g)
  {
    hide Crc, Slice, Slot, PoolAt, PoolLength, PoolCrc, OffsetOf, LengthOf, CrcOf, FrontChecks, Holds, CifpOpens, EachOnce, Present;
  }

  /** A cache with up to four consecutive bytes changed inside the pool, the graph or the details is refused. */
  lemma DamageIsRefused(file: Bytes, hurt: Bytes, f: Front, g: Region, at: nat, r: OpenResult)
    requires Framed(file, f) && Readable(file, f) && (g.TheDetails? ==> Present(Slot(f.table, DETAIL)))
    requires HurtWithin(file, hurt, RegionAt(f, g), RegionLength(f, g), at) && PoolAt(f) <= RegionAt(f, g)
    requires OpenAnswers(hurt, r)
    ensures r == OpenResult.Corrupt
  {
    hide *;
    FramedIsChecked(file, f);
    FrontSurvives(file, hurt, f, RegionAt(f, g), RegionLength(f, g), at);
    OtherIsNoFront(hurt);
    ChecksumHeld(file, f, g);
    RegionCaught(file, hurt, RegionAt(f, g), RegionLength(f, g), at);
    if r.Ready? {
      var h := FrontOfReady(hurt, r.data);
      FramedIsChecked(hurt, h);
      OneChecked(hurt, f, h);
      ChecksumHeld(hurt, f, g);
    }
    NotOfOther(hurt, f, r);
  }

  lemma FrontOfReady(file: Bytes, d: UnifiedData) returns (f: Front)
    requires OpenAnswers(file, Ready(d))
    ensures Framed(file, f) && Readable(file, f)
  {
    hide Framed, Readable, DataIs;
    f :| Framed(file, f) && Readable(file, f) && DataIs(file, f, d);
  }

  lemma NotOfOther(file: Bytes, f: Front, r: OpenResult)
    requires FrontChecks(file, f) && OpenAnswers(file, r)
    ensures !r.FormatMismatch?
  {
    hide Framed, Readable, DataIs, FrontChecks, OfOtherVersion;
    OtherIsNoFront(file);
  }

  /** An airport's damaged segment is never passed off as its procedures: the entry no longer holds anything. */
  lemma DamagedSegmentHoldsNothing(a: CifpArchive, b: CifpArchive, e: Entry, d: CifpData, at: nat)
    requires EntryHolds(a, e, d) && HurtWithin(a.file, b.file, e.offset, e.len, at)
    ensures forall x :: !EntryHolds(b, e, x)
  {
    hide Crc, SegmentHolds;
    RegionCaught(a.file, b.file, e.offset, e.len, at);
    HurtIsSomewhere(a.file, b.file, e.offset, e.len, at);
  }

  lemma HurtIsSomewhere(file: Bytes, hurt: Bytes, lo: nat, n: nat, at: nat)
    requires HurtWithin(file, hurt, lo, n, at)
    ensures n > 0
  {
    var k :| 0 <= k < |file| && file[k] != hurt[k];
  }
}
