/** A cache that opens but that the catalogue cannot list: one built from a directory name of 8192 bytes. */
module ContainerExamples {
  import opened Numbers
  import opened ByteIO
  import opened Groups
  import opened GraphWire
  import opened GraphCodec
  import opened GraphEncoding
  import opened CifpArchives
  import opened Fronts
  import opened Pieces
  import opened Containers
  import opened ContainerBuilds
  import opened ContainerRoundTrips

  const EMPTY_SNAPSHOT: GraphSnapshot :=
    GraphSnapshot(0, [], [], [], [], [], [], [0], [], [], seq(CELL_COUNT, _ => 0), [])

  const LONG_HEADER := Header(2601, [], [], seq(MAX_HEADER_PREFIX, _ => 0x61), Capabilities(false, false, false, false))

  const LONG_INPUT := BuildInput(EMPTY_SNAPSHOT, None, None, LONG_HEADER)

  ghost function EmptyWire(): Wire {
    Wire([0, 0, 0, 0, 0], [], [], [[0]], [], [], seq(CELL_COUNT, _ => [0]), [])
  }

  lemma EmptyWireFits()
    ensures WireFits(EmptyWire()) && Denotes(EmptyWire(), EMPTY_SNAPSHOT, []) && Normal(EMPTY_SNAPSHOT) == EMPTY_SNAPSHOT
    ensures ValidGraph(EMPTY_SNAPSHOT)
  {
    Spans();
  }

  ghost function LongParts(): Parts
    requires WireFits(EmptyWire())
  {
    Parts([], Layout(EmptyWire()), [], 0, [])
  }

  /** The empty graph's bytes hold it. */
  lemma EmptyGraphHeld()
    requires WireFits(EmptyWire())
    ensures SectionsHold(LONG_INPUT, LongParts())
  {
    EmptyWireFits();
    hide Layout, Denotes, ValidGraph, Normal, WireFits;
    assert Candidate(Layout(EmptyWire()), EmptyWire());
  }

  /** The file built from it is laid out as every built file is, and not too large to address. */
  lemma LongFile() returns (file: Bytes)
    requires WireFits(EmptyWire())
    ensures LaidOut(file, LONG_INPUT, LongParts()) && |file| <= U64_MAX
  {
    FrontOfFits(LONG_INPUT, LongParts());
    var f := FrontOf(LONG_INPUT, LongParts());
    FrontSizes(f);
    LayoutSize(EmptyWire());
    hide FrontBytes, FrontOf, FrontFits, Layout, Crc, LittleEndian, WireFits;
    var p := LongParts();
    file := FrontBytes(f) + (LittleEndian(Crc(FrontBytes(f)), 4) + (p.pool + (p.graph + (p.cifp + p.detail))));
  }

  lemma LongHeaderLength()
    ensures HeaderLength(LONG_HEADER) > MAX_HEADER_PREFIX && LONG_INPUT.header == LONG_HEADER
  {
  }

  lemma InPlaceIsChecked(file: Bytes, input: BuildInput, p: Parts)
    requires InPlace(file, input, p)
    ensures FrontChecks(file, FrontOf(input, p))
  {
    hide FrontChecks, FrontOf, PieceAt;
  }

  /** That file opens, with the header it was built from, and the catalogue passes it over. */
  lemma LongProvenanceOpensUnlisted() returns (file: Bytes)
    ensures forall r :: OpenAnswers(file, r) ==> r.Ready? && r.data.header == LONG_HEADER
    ensures forall listed :: HeaderAnswers(file, listed) ==> listed == None
  {
    EmptyWireFits();
    hide *;
    LongHeaderLength();
    file := LongFile();
    EmptyGraphHeld();
    forall r | OpenAnswers(file, r)
      ensures r.Ready? && r.data.header == LONG_HEADER
    {
      OpenUndoesBuild(file, LONG_INPUT, LongParts(), r);
    }
    LaidOutInPlace(file, LONG_INPUT, LongParts());
    InPlaceIsChecked(file, LONG_INPUT, LongParts());
    HeaderIs(LONG_INPUT, LongParts());
    forall listed | HeaderAnswers(file, listed)
      ensures listed == None
    {
      ListedWhenFrontFits(file, FrontOf(LONG_INPUT, LongParts()), listed);
    }
  }
}
