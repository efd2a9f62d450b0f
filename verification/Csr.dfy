/** The compressed sparse rows of library/baseline/csr.cpp once loaded. The kernels are const
    methods, so they read the arrays as one immutable value. */
module Csr {
  import opened Paths

  /** One direction of the graph: v[u] is the end of the interval of u in e and w. */
  datatype Rows = Rows(v: seq<nat>, e: seq<nat>, w: seq<int>) {
    function First(u: nat): nat
      requires u < |v|
    {
      if u == 0 then 0 else v[u - 1]
    }

    function Last(u: nat): nat
      requires u < |v|
    {
      v[u]
    }

    ghost predicate Valid(n: nat) {
      && |v| == n
      && |w| == |e|
      && (forall i, j | 0 <= i <= j < n :: v[i] <= v[j])
      && (if n == 0 then |e| == 0 else v[n - 1] == |e|)
      && (forall i | 0 <= i < |e| :: e[i] < n)
    }

    function Degree(u: nat): nat
      requires Valid(|v|) && u < |v|
    {
      Last(u) - First(u)
    }

    function Row(u: nat): seq<nat>
      requires Valid(|v|) && u < |v|
    {
      e[First(u)..Last(u)]
    }

    /** Position i of the edge arrays belongs to vertex u. */
    ghost predicate InRow(u: nat, i: nat) {
      u < |v| && First(u) <= i < Last(u)
    }

    ghost predicate HasEdge(u: nat, x: nat)
      requires Valid(|v|)
    {
      u < |v| && exists i: nat :: InRow(u, i) && i < |e| && e[i] == x
    }

    ghost predicate StrictlySorted()
      requires Valid(|v|)
    {
      forall u: nat, i: nat, j: nat | InRow(u, i) && InRow(u, j) && i < j < |e| :: e[i] < e[j]
    }

    ghost function Edges(): set<Edge>
      requires Valid(|v|)
    {
      set u: nat, i: nat | u < |v| && i < |e| && InRow(u, i) :: Edge(u, e[i], w[i])
    }
  }

  datatype Csr = Csr(n: nat, numEdges: nat, out: Rows, inc: Rows) {
    /** The incoming rows are the transpose of the outgoing ones. */
    ghost predicate Valid() {
      && out.Valid(n)
      && inc.Valid(n)
      && (forall u: nat, x: nat :: out.HasEdge(u, x) <==> inc.HasEdge(x, u))
    }

    /** Rows strictly sorted and no self loops. */
    ghost predicate Simple()
      requires Valid()
    {
      && out.StrictlySorted()
      && inc.StrictlySorted()
      && (forall u: nat :: !out.HasEdge(u, u))
    }
  }

  const EMPTY_CSR: Csr := Csr(0, 0, Rows([], [], []), Rows([], [], []))

  lemma RowInBounds(r: Rows, n: nat, u: nat)
    requires r.Valid(n) && u < n
    ensures r.First(u) <= r.Last(u) <= |r.e|
  {}

  lemma EdgeAt(r: Rows, u: nat, i: nat)
    requires r.Valid(|r.v|) && r.InRow(u, i)
    ensures i < |r.e| && r.HasEdge(u, r.e[i]) && Edge(u, r.e[i], r.w[i]) in r.Edges()
  {}

  lemma HasEdgeIffHop(r: Rows, u: nat, x: nat)
    requires r.Valid(|r.v|)
    ensures r.HasEdge(u, x) <==> Edge(u, x, 1) in Hops(r.Edges())
    ensures r.HasEdge(u, x) ==> u < |r.v| && x < |r.v|
  {
    if r.HasEdge(u, x) {
      var i: nat :| r.InRow(u, i) && i < |r.e| && r.e[i] == x;
      EdgeAt(r, u, i);
      assert Edge(u, r.e[i], r.w[i]) in r.Edges();
    }
    if Edge(u, x, 1) in Hops(r.Edges()) {
      var e :| e in r.Edges() && e.src == u && e.dst == x;
    }
  }
}
