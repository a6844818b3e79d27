/** Exact numbers with an explicit infinity, and the small option type used by the whole model. */
module Numbers {

  datatype Option<+T> = None | Some(value: T)

  /** A cost that may be the source's `kInfinity`. */
  datatype Ext = Fin(value: real) | Inf {

    predicate Less(other: Ext) {
      Fin? && (other.Inf? || value < other.value)
    }

    predicate AtMost(other: Ext) {
      !other.Less(this)
    }

    function Plus(d: real): Ext {
      if Inf? then Inf else Fin(value + d)
    }
  }
}

/** The navigation graph in compressed-sparse-row form. */
module NavGraphs {

  datatype AirwayLevel = Low | High | Both

  datatype GraphEdge = GraphEdge(
    to: int, distance: real, airwayId: nat, baseFl: int, topFl: int, level: AirwayLevel)

  const INT_LIMIT := 0x8000_0000

  /**
   * Vertices are 0 to `vertices` - 1. The trigonometry enters as two tables over vertex pairs:
   * the initial bearing in degrees and the chord length in NM.
   */
  datatype GraphData = GraphData(
    vertices: nat, offsets: seq<nat>, edges: seq<GraphEdge>,
    bearing: seq<seq<real>>, chord: seq<seq<real>>) {

    ghost predicate Has(v: int) { 0 <= v < vertices }

    /** The shape every decoded graph has: offsets cover the edges row by row, and targets are vertices. */
    ghost predicate WellFormed() {
      && vertices < INT_LIMIT
      && |offsets| == vertices + 1 && offsets[vertices] == |edges|
      && (forall i, j :: 0 <= i <= j < |offsets| ==> offsets[i] <= offsets[j])
      && (forall i :: 0 <= i < |edges| ==> Has(edges[i].to) && edges[i].distance >= 0.0)
      && |bearing| == |chord| == vertices
      && (forall u :: 0 <= u < vertices ==> |bearing[u]| == |chord[u]| == vertices)
      && (forall u, v :: 0 <= u < vertices && 0 <= v < vertices ==> 0.0 <= bearing[u][v] < 360.0)
    }

    function EdgesBegin(v: int): nat {
      if 0 <= v < |offsets| then offsets[v] else 0
    }

    function EdgesEnd(v: int): (end: nat)
      ensures WellFormed() && Has(v) ==> EdgesBegin(v) <= end <= |edges|
    {
      if 0 <= v < |offsets| - 1 then offsets[v + 1] else 0
    }

    /** The vertex the edge at position i leads to. */
    function Target(i: nat): (v: int)
      ensures WellFormed() && i < |edges| ==> Has(v)
    {
      if i < |edges| then edges[i].to else -1
    }

    function Bearing(u: int, v: int): (heading: real)
      ensures WellFormed() ==> 0.0 <= heading < 360.0
    {
      if 0 <= u < |bearing| && 0 <= v < |bearing[u]| then bearing[u][v] else 0.0
    }

    function Chord(u: int, v: int): real {
      if 0 <= u < |chord| && 0 <= v < |chord[u]| then chord[u][v] else 0.0
    }
  }

  /** A graph whose shape has been checked, as every decoded graph's is. */
  type NavGraph = g: GraphData | g.WellFormed() witness GraphData(0, [0], [], [], [])
}
