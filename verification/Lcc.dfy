/** Local clustering coefficient on the undirected CSR: the sort-merge kernel
    (library/baseline/csr.cpp:1422-1434 and 1514-1563) and the hash kernel (lines 1144-1198). */
module Lcc {
  import opened Counting
  import opened Csr
  import opened Triangles

  ghost function NeighbourSets(g: Csr): Neighbours
    requires g.out.Valid(g.n)
  {
    map u: nat | u < g.n :: Elements(g.out.Row(u))
  }

  /** A CSR as load_undirected leaves it: symmetric, rows strictly sorted, no self loops. */
  ghost predicate UndirectedCsr(g: Csr) {
    && g.out.Valid(g.n)
    && (forall u: nat | u < g.n :: Increasing(g.out.Row(u)))
    && Undirected(NeighbourSets(g))
  }

  type UndirectedGraph = g: Csr | UndirectedCsr(g) witness EMPTY_CSR

  ghost function NeighboursOf(g: UndirectedGraph): SimpleGraph {
    NeighbourSets(g)
  }

  // ---- Atomic additions to the counters ----

  datatype Add = Add(x: nat, amount: nat)

  ghost function Total(adds: seq<Add>, x: nat): nat {
    if adds == [] then 0
    else Total(adds[..|adds| - 1], x) + if adds[|adds| - 1].x == x then adds[|adds| - 1].amount else 0
  }

  lemma {:induction false} TotalConcat(a: seq<Add>, b: seq<Add>, x: nat)
    ensures Total(a + b, x) == Total(a, x) + Total(b, x)
  {
    if b == [] {
      assert a + b == a;
    } else {
      TotalConcat(a, b[..|b| - 1], x);
      assert (a + b)[..|a + b| - 1] == a + b[..|b| - 1];
    }
  }

  lemma TotalSnoc(a: seq<Add>, c: Add, x: nat)
    ensures Total(a + [c], x) == Total(a, x) + if c.x == x then c.amount else 0
  {
    assert (a + [c])[..|a|] == a;
  }

  /** The counters after the additions, each to one of them. */
  ghost predicate Applied(before: seq<nat>, adds: seq<Add>, after: seq<nat>) {
    && |after| == |before|
    && (forall a | a in adds :: a.x < |before|)
    && forall x: nat | x < |before| :: after[x] == before[x] + Total(adds, x)
  }

  method AtomicAdd(counters: array<nat>, x: nat, amount: nat, ghost before: seq<nat>, ghost adds: seq<Add>)
    returns (ghost adds': seq<Add>)
    requires x < counters.Length && Applied(before, adds, counters[..])
    modifies counters
    ensures adds' == adds + [Add(x, amount)] && Applied(before, adds', counters[..])
  {
    adds' := adds + [Add(x, amount)];
    forall y: nat | y < |before|
      ensures Total(adds', y) == Total(adds, y) + if y == x then amount else 0
    {
      TotalSnoc(adds, Add(x, amount), y);
    }
    counters[x] := counters[x] + amount;
  }

  // ---- Merging the row of n2 with the neighbours of n1 seen so far ----

  /** found lists the common elements of both lists below n2, met before position j of the row. */
  ghost predicate Merged(neighbours: seq<nat>, row: seq<nat>, n2: nat, j: nat, found: seq<nat>) {
    && j <= |row|
    && (forall c :: c in found <==> c < n2 && c in row[..j] && c in neighbours)
    && Increasing(found)
  }

  /** What was added for the common elements: two for each of them and two for n2. */
  ghost predicate Credited(adds: seq<Add>, n2: nat, found: seq<nat>) {
    forall x :: Total(adds, x) == if x == n2 then 2 * |found| else if x in found then 2 else 0
  }

  lemma MergedMatch(neighbours: seq<nat>, row: seq<nat>, n2: nat, j: nat, found: seq<nat>)
    requires j < |row| && Increasing(row) && Merged(neighbours, row, n2, j, found) && row[j] < n2 && row[j] in neighbours
    ensures row[j] !in found && Merged(neighbours, row, n2, j + 1, found + [row[j]])
  {
    assert row[..j + 1] == row[..j] + [row[j]];
    forall c | c in found
      ensures c < row[j]
    {
      assert c in row[..j];
    }
    forall i, k | 0 <= i < k < |found + [row[j]]|
      ensures (found + [row[j]])[i] < (found + [row[j]])[k]
    {
      assert found[i] in found;
    }
    assert forall c :: c in found + [row[j]] <==> c in found || c == row[j];
  }

  lemma MergedMiss(neighbours: seq<nat>, row: seq<nat>, n2: nat, j: nat, found: seq<nat>)
    requires j < |row| && Merged(neighbours, row, n2, j, found) && row[j] !in neighbours
    ensures Merged(neighbours, row, n2, j + 1, found)
  {
    assert row[..j + 1] == row[..j] + [row[j]];
  }

  lemma MergedRest(neighbours: seq<nat>, row: seq<nat>, n2: nat, j: nat, found: seq<nat>)
    requires j < |row| && Increasing(row) && Merged(neighbours, row, n2, j, found) && row[j] >= n2
    ensures Merged(neighbours, row, n2, |row|, found)
  {
    forall c | c in row && c < n2
      ensures c in row[..j]
    {
      var k :| 0 <= k < |row| && row[k] == c;
      assert row[..j][k] == c;
    }
    assert row[..|row|] == row;
  }

  lemma CreditMatch(adds: seq<Add>, n2: nat, n3: nat, found: seq<nat>)
    requires Credited(adds, n2, found) && n3 != n2 && n3 !in found && n2 !in found
    ensures Credited(adds + [Add(n2, 2)] + [Add(n3, 2)], n2, found + [n3])
  {
    forall x
      ensures Total(adds + [Add(n2, 2)] + [Add(n3, 2)], x)
           == if x == n2 then 2 * |found + [n3]| else if x in found + [n3] then 2 else 0
    {
      TotalSnoc(adds, Add(n2, 2), x);
      TotalSnoc(adds + [Add(n2, 2)], Add(n3, 2), x);
    }
  }

  /** A number that is in an increasing list and larger than everything before the marker. */
  lemma AtMarker(neighbours: seq<nat>, marker: nat, n3: nat)
    requires Increasing(neighbours) && marker < |neighbours| && n3 <= neighbours[marker]
    requires forall k | 0 <= k < marker :: neighbours[k] < n3
    ensures n3 in neighbours <==> n3 == neighbours[marker]
  {}

  /** Advances the marker: csr.cpp:1536-1541. */
  method Skip(neighbours: seq<nat>, marker: nat, n3: nat) returns (m: nat)
    requires marker < |neighbours| && forall k | 0 <= k < marker :: neighbours[k] < n3
    ensures marker <= m <= |neighbours| && forall k | 0 <= k < m :: neighbours[k] < n3
    ensures m < |neighbours| ==> n3 <= neighbours[m]
  {
    m := marker;
    if n3 > neighbours[m] {
      m := m + 1;
      while m < |neighbours| && n3 > neighbours[m]
        invariant marker <= m <= |neighbours| && forall k | 0 <= k < m :: neighbours[k] < n3
      {
        m := m + 1;
      }
    }
  }

  /** A common neighbour: two for n2, two for n3. */
  method Credit(n2: nat, n3: nat, counters: array<nat>, ghost before: seq<nat>, ghost adds: seq<Add>, ghost found: seq<nat>)
    returns (ghost adds': seq<Add>)
    requires n2 < counters.Length && n3 < counters.Length && n3 != n2 && n3 !in found && n2 !in found
    requires Applied(before, adds, counters[..]) && Credited(adds, n2, found)
    modifies counters
    ensures Applied(before, adds', counters[..]) && Credited(adds', n2, found + [n3])
  {
    CreditMatch(adds, n2, n3, found);
    adds' := AtomicAdd(counters, n2, 2, before, adds);
    adds' := AtomicAdd(counters, n3, 2, before, adds');
  }

  lemma Untouched(c: seq<nat>)
    ensures Applied(c, [], c)
  {}

  lemma NothingMerged(neighbours: seq<nat>, row: seq<nat>, n2: nat)
    ensures Merged(neighbours, row, n2, 0, []) && Credited([], n2, [])
  {}

  /** The loop over the row of n2, csr.cpp:1529-1557. The last neighbour is n2 itself, so neither of
      the exits for an exhausted list cuts off a match. */
  method MergeRow(neighbours: seq<nat>, row: seq<nat>, n2: nat, counters: array<nat>)
    returns (num: nat, ghost found: seq<nat>, ghost adds: seq<Add>)
    requires Increasing(neighbours) && Increasing(row) && |neighbours| > 0 && neighbours[|neighbours| - 1] == n2
    requires n2 < counters.Length && n2 !in row
    modifies counters
    ensures Merged(neighbours, row, n2, |row|, found) && Credited(adds, n2, found) && num == 2 * |found|
    ensures Applied(old(counters[..]), adds, counters[..])
  {
    num, found, adds := 0, [], [];
    ghost var before := counters[..];
    Untouched(before);
    NothingMerged(neighbours, row, n2);
    var marker := 0;
    for j := 0 to |row|
      invariant Merged(neighbours, row, n2, j, found) && Credited(adds, n2, found) && num == 2 * |found|
      invariant Applied(before, adds, counters[..])
      invariant marker < |neighbours| && (j < |row| ==> forall k | 0 <= k < marker :: neighbours[k] < row[j])
    {
      var n3 := row[j];
      if n3 > n2 {
        MergedRest(neighbours, row, n2, j, found);
        break;
      }
      assert n3 != n2;
      marker := Skip(neighbours, marker, n3);
      if marker >= |neighbours| {
        break;
      }
      AtMarker(neighbours, marker, n3);
      if n3 == neighbours[marker] {
        MergedMatch(neighbours, row, n2, j, found);
        num := num + 2;
        adds := Credit(n2, n3, counters, before, adds, found);
        found := found + [n3];
        marker := marker + 1;
        if marker >= |neighbours| {
          break;
        }
      } else {
        MergedMiss(neighbours, row, n2, j, found);
      }
    }
  }

  // ---- All rows of one vertex ----

  ghost function Touching(tri: set<(nat, nat)>, x: nat): set<(nat, nat)> {
    set p | p in tri && (p.0 == x || p.1 == x)
  }

  ghost function Fan(n2: nat, found: seq<nat>): set<(nat, nat)> {
    set c | c in found :: (n2, c)
  }

  lemma FanSize(n2: nat, found: seq<nat>)
    requires Increasing(found)
    ensures |Fan(n2, found)| == |found|
  {
    DistinctSize(found);
    InjectionSize(Elements(found), Fan(n2, found), c => (n2, c));
    InjectionSize(Fan(n2, found), Elements(found), (p: (nat, nat)) => p.1);
  }

  lemma FanTouching(n2: nat, found: seq<nat>, x: nat)
    requires Increasing(found) && n2 !in found
    ensures |Touching(Fan(n2, found), x)| == if x == n2 then |found| else if x in found then 1 else 0
  {
    if x == n2 {
      FanSize(n2, found);
      assert Touching(Fan(n2, found), x) == Fan(n2, found);
    } else if x in found {
      assert Touching(Fan(n2, found), x) == {(n2, x)};
    } else {
      assert Touching(Fan(n2, found), x) == {};
    }
  }

  /** The triangles of n1 whose middle corner is among the given neighbours. */
  ghost function TrianglesVia(N: SimpleGraph, n1: nat, middle: seq<nat>): set<(nat, nat)>
  {
    set p | p in Below3(N, n1) && p.0 in middle
  }

  lemma ViaSnoc(N: SimpleGraph, n1: nat, middle: seq<nat>, n2: nat, row: seq<nat>, found: seq<nat>)
    requires n1 in N && n2 in N[n1] && n2 < n1 && n2 !in middle && Elements(row) == N[n2]
    requires forall c | c < n2 :: c in N[n1] <==> c in middle + [n2]
    requires Merged(middle + [n2], row, n2, |row|, found)
    ensures TrianglesVia(N, n1, middle + [n2]) == TrianglesVia(N, n1, middle) + Fan(n2, found)
    ensures TrianglesVia(N, n1, middle) !! Fan(n2, found)
  {
    assert row[..|row|] == row && forall c :: c in row <==> c in Elements(row);
  }

  ghost predicate Accounts(adds: seq<Add>, tri: set<(nat, nat)>) {
    forall x :: Total(adds, x) == 2 * |Touching(tri, x)|
  }

  lemma AccountsGrow(adds: seq<Add>, tri: set<(nat, nat)>, more: seq<Add>, n2: nat, found: seq<nat>)
    requires Accounts(adds, tri) && Credited(more, n2, found) && Increasing(found) && n2 !in found && tri !! Fan(n2, found)
    ensures Accounts(adds + more, tri + Fan(n2, found))
  {
    forall x
      ensures Total(adds + more, x) == 2 * |Touching(tri + Fan(n2, found), x)|
    {
      TotalConcat(adds, more, x);
      FanTouching(n2, found, x);
      assert Touching(tri + Fan(n2, found), x) == Touching(tri, x) + Touching(Fan(n2, found), x);
    }
  }

  lemma AppliedTrans(c0: seq<nat>, a: seq<Add>, c1: seq<nat>, b: seq<Add>, c2: seq<nat>)
    requires Applied(c0, a, c1) && Applied(c1, b, c2)
    ensures Applied(c0, a + b, c2)
  {
    forall x: nat | x < |c0|
      ensures c2[x] == c0[x] + Total(a + b, x)
    {
      TotalConcat(a, b, x);
    }
  }

  /** The additions made on behalf of n1 are its share of every counter. */
  ghost predicate IsTrace(N: SimpleGraph, n1: nat, adds: seq<Add>)
  {
    forall x :: Total(adds, x) == Share(N, n1, x)
  }

  lemma TraceComplete(N: SimpleGraph, n1: nat, adds: seq<Add>)
    requires Accounts(adds, Below3(N, n1))
    ensures IsTrace(N, n1, adds + [Add(n1, 2 * |Below3(N, n1)|)])
    ensures Below3(N, n1) == {} ==> IsTrace(N, n1, adds)
  {
    var tri := Below3(N, n1);
    forall x
      ensures Total(adds + [Add(n1, 2 * |tri|)], x) == Share(N, n1, x)
      ensures tri == {} ==> Total(adds, x) == Share(N, n1, x)
    {
      TotalSnoc(adds, Add(n1, 2 * |tri|), x);
      if x == n1 {
        assert Corner(N, n1, x) == tri && Touching(tri, n1) == {};
      } else {
        assert Corner(N, n1, x) == Touching(tri, x);
      }
    }
  }

  lemma ViaAll(N: SimpleGraph, n1: nat, row: seq<nat>, i: nat)
    requires n1 in N && Elements(row) == N[n1] && Increasing(row) && i <= |row|
    requires i < |row| ==> row[i] > n1
    ensures TrianglesVia(N, n1, row[..i]) == Below3(N, n1)
  {
    forall b | b in N[n1] && b < n1
      ensures b in row[..i]
    {
      assert b in Elements(row);
      var k :| 0 <= k < |row| && row[k] == b;
      assert row[..i][k] == b;
    }
  }

  lemma RowFacts(g: UndirectedGraph, u: nat)
    requires u < g.n
    ensures Increasing(g.out.Row(u)) && Elements(g.out.Row(u)) == NeighboursOf(g)[u] && u !in g.out.Row(u)
    ensures forall x | x in g.out.Row(u) :: x < g.n
  {
    assert forall x :: x in g.out.Row(u) <==> x in Elements(g.out.Row(u));
  }

  lemma PrefixFacts(N: SimpleGraph, n1: nat, row: seq<nat>, i: nat)
    requires n1 in N && Elements(row) == N[n1] && Increasing(row) && i < |row|
    ensures row[i] in N[n1] && row[i] !in row[..i] && row[..i + 1] == row[..i] + [row[i]] && Increasing(row[..i + 1])
    ensures forall c | c < row[i] :: c in N[n1] <==> c in row[..i + 1]
  {
    forall c | c < row[i] && c in N[n1]
      ensures c in row[..i + 1]
    {
      assert c in Elements(row);
      var k :| 0 <= k < |row| && row[k] == c;
      assert row[..i + 1][k] == c;
    }
    assert forall c | c in row[..i + 1] :: c in Elements(row);
  }

  /** The books after the first i neighbours: the triangles found and the additions made for them. */
  ghost predicate Books(g: UndirectedGraph, n1: nat, i: nat, num: nat, tri: set<(nat, nat)>, adds: seq<Add>)
    requires n1 < g.n
  {
    && i <= |g.out.Row(n1)|
    && tri == TrianglesVia(NeighboursOf(g), n1, g.out.Row(n1)[..i])
    && num == 2 * |tri|
    && Accounts(adds, tri)
  }

  lemma BooksStep(g: UndirectedGraph, n1: nat, i: nat, num: nat, tri: set<(nat, nat)>, adds: seq<Add>, found: seq<nat>, more: seq<Add>)
    requires n1 < g.n && i < |g.out.Row(n1)| && g.out.Row(n1)[i] < n1
    requires Books(g, n1, i, num, tri, adds)
    requires var n2 := g.out.Row(n1)[i];
             Merged(g.out.Row(n1)[..i + 1], g.out.Row(n2), n2, |g.out.Row(n2)|, found) && Credited(more, n2, found)
    ensures Books(g, n1, i + 1, num + 2 * |found|, tri + Fan(g.out.Row(n1)[i], found), adds + more)
  {
    var N, row1 := NeighboursOf(g), g.out.Row(n1);
    var n2 := row1[i];
    RowFacts(g, n1);
    PrefixFacts(N, n1, row1, i);
    RowFacts(g, n2);
    ViaSnoc(N, n1, row1[..i], n2, g.out.Row(n2), found);
    AccountsGrow(adds, tri, more, n2, found);
    FanSize(n2, found);
  }

  lemma BooksClosed(g: UndirectedGraph, n1: nat, i: nat, num: nat, tri: set<(nat, nat)>, adds: seq<Add>)
    requires n1 < g.n && Books(g, n1, i, num, tri, adds)
    requires i < |g.out.Row(n1)| ==> g.out.Row(n1)[i] > n1
    ensures IsTrace(NeighboursOf(g), n1, adds + [Add(n1, num)])
    ensures num == 0 ==> IsTrace(NeighboursOf(g), n1, adds)
  {
    RowFacts(g, n1);
    ViaAll(NeighboursOf(g), n1, g.out.Row(n1), i);
    TraceComplete(NeighboursOf(g), n1, adds);
  }

  /** One turn of the outer loop of process_vertex: the i-th neighbour joins the list, then its row is merged. */
  method MergeNeighbour(g: UndirectedGraph, n1: nat, neighbours: seq<nat>, i: nat, counters: array<nat>, numTriangles: nat,
                        ghost before: seq<nat>, ghost tri: set<(nat, nat)>, ghost adds: seq<Add>)
    returns (num: nat, ghost tri': set<(nat, nat)>, ghost adds': seq<Add>)
    requires n1 < g.n == counters.Length && Books(g, n1, i, numTriangles, tri, adds)
    requires i < |g.out.Row(n1)| && g.out.Row(n1)[i] < n1 && neighbours == g.out.Row(n1)[..i + 1]
    requires Applied(before, adds, counters[..])
    modifies counters
    ensures Books(g, n1, i + 1, num, tri', adds') && Applied(before, adds', counters[..])
  {
    var n2 := g.out.Row(n1)[i];
    ghost var mid := counters[..];
    RowFacts(g, n1);
    PrefixFacts(NeighboursOf(g), n1, g.out.Row(n1), i);
    RowFacts(g, n2);
    ghost var found, more;
    num, found, more := MergeRow(neighbours, g.out.Row(n2), n2, counters);
    BooksStep(g, n1, i, numTriangles, tri, adds, found, more);
    AppliedTrans(before, adds, mid, more, counters[..]);
    num := numTriangles + num;
    tri' := tri + Fan(n2, found);
    adds' := adds + more;
  }

  lemma NotItself(g: UndirectedGraph, n1: nat, k: nat)
    requires n1 < g.n && k < |g.out.Row(n1)|
    ensures g.out.Row(n1)[k] != n1
  {
    RowFacts(g, n1);
    assert g.out.Row(n1)[k] in g.out.Row(n1);
  }

  lemma OpenBooks(g: UndirectedGraph, n1: nat)
    requires n1 < g.n
    ensures Books(g, n1, 0, 0, {}, [])
  {
    assert g.out.Row(n1)[..0] == [];
    assert TrianglesVia(NeighboursOf(g), n1, []) == {};
    forall x
      ensures Touching({}, x) == {}
    {}
  }

  /** The outer loop of process_vertex. */
  method MergeNeighbours(g: UndirectedGraph, n1: nat, counters: array<nat>)
    returns (num: nat, ghost i: nat, ghost tri: set<(nat, nat)>, ghost adds: seq<Add>)
    requires n1 < g.n == counters.Length
    modifies counters
    ensures Books(g, n1, i, num, tri, adds) && (i < |g.out.Row(n1)| ==> g.out.Row(n1)[i] > n1)
    ensures Applied(old(counters[..]), adds, counters[..])
  {
    num, tri, adds := 0, {}, [];
    ghost var before := counters[..];
    var row1: seq<nat> := g.out.Row(n1);
    var neighbours: seq<nat> := [];
    RowFacts(g, n1);
    OpenBooks(g, n1);
    Untouched(before);
    var k := 0;
    while k < |row1| && !(row1[k] > n1)
      invariant k <= |row1| && neighbours == row1[..k]
      invariant Books(g, n1, k, num, tri, adds)
      invariant Applied(before, adds, counters[..])
    {
      NotItself(g, n1, k);
      TakeSnoc(row1, k);
      neighbours := neighbours + [row1[k]];
      num, tri, adds := MergeNeighbour(g, n1, neighbours, k, counters, num, before, tri, adds);
      k := k + 1;
    }
    i := k;
  }

  /** Worker::process_vertex. */
  method ProcessVertex(g: UndirectedGraph, n1: nat, counters: array<nat>) returns (ghost adds: seq<Add>)
    requires n1 < g.n == counters.Length
    modifies counters
    ensures IsTrace(NeighboursOf(g), n1, adds) && forall a | a in adds :: a.x < g.n
    ensures Applied(old(counters[..]), adds, counters[..])
  {
    var numTriangles;
    ghost var i, tri;
    numTriangles, i, tri, adds := MergeNeighbours(g, n1, counters);
    BooksClosed(g, n1, i, numTriangles, tri, adds);
    if numTriangles != 0 {
      adds := AtomicAdd(counters, n1, numTriangles, old(counters[..]), adds);
    }
  }

  // ---- Scores ----

  method ScoreOf(g: UndirectedGraph, i: nat, numTriangles: nat) returns (score: real)
    requires i < g.n && numTriangles == |Wedges(NeighboursOf(g), i)|
    ensures score == Coefficient(NeighboursOf(g), i)
  {
    score := 0.0;
    WedgesBound(NeighboursOf(g), i);
    DegreeIsSize(g, i);
    if numTriangles > 0 {
      score := Ratio(numTriangles, g.out.Degree(i));
    } else if g.out.Degree(i) >= 2 {
      RatioBound(0, g.out.Degree(i));
    }
  }

  /** Master::compute_scores. A positive counter means two neighbours at least, so the division is safe. */
  method ComputeScores(g: UndirectedGraph, counters: array<nat>) returns (scores: array<real>)
    requires counters.Length == g.n
    requires forall x: nat | x < g.n :: counters[x] == |Wedges(NeighboursOf(g), x)|
    ensures fresh(scores) && scores.Length == g.n
    ensures forall x: nat | x < g.n :: scores[x] == Coefficient(NeighboursOf(g), x)
  {
    scores := new real[g.n](_ => 0.0);
    for i := 0 to g.n
      modifies scores
      invariant forall x: nat | x < i :: scores[x] == Coefficient(NeighboursOf(g), x)
    {
      var score := ScoreOf(g, i, counters[i]);
      scores[i] := score;
    }
  }

  lemma DegreeIsSize(g: UndirectedGraph, u: nat)
    requires u < g.n
    ensures g.out.Degree(u) == |NeighboursOf(g)[u]|
  {
    DistinctSize(g.out.Row(u));
  }

  // ---- The hash kernel ----

  /** The pairs (u, w) of adjacent neighbours of v with u among the first i neighbours. */
  ghost function WedgesVia(N: SimpleGraph, v: nat, firsts: seq<nat>): set<(nat, nat)>
    requires v in N
  {
    set p | p in Wedges(N, v) && p.0 in firsts
  }

  /** Counts the members of the row that are neighbours of v. */
  method CountCommon(row: seq<nat>, neighbours: set<nat>) returns (count: nat)
    requires Distinct(row)
    ensures count == |Elements(row) * neighbours|
  {
    count := 0;
    ghost var common: set<nat> := {};
    for j := 0 to |row|
      invariant common == Elements(row[..j]) * neighbours && count == |common|
    {
      TakeSnoc(row, j);
      assert row[j] !in row[..j];
      if row[j] in neighbours {
        count := count + 1;
        common := common + {row[j]};
      }
    }
    assert row[..|row|] == row;
  }

  lemma WedgesViaSnoc(N: SimpleGraph, v: nat, firsts: seq<nat>, u: nat)
    requires v in N && u in N[v] && u !in firsts
    ensures |WedgesVia(N, v, firsts + [u])| == |WedgesVia(N, v, firsts)| + |N[u] * N[v]|
  {
    var more := set w | w in N[u] * N[v] :: (u, w);
    assert WedgesVia(N, v, firsts + [u]) == WedgesVia(N, v, firsts) + more;
    assert WedgesVia(N, v, firsts) !! more;
    assert |more| == |N[u] * N[v]| by {
      InjectionSize(N[u] * N[v], more, w => (u, w));
      InjectionSize(more, N[u] * N[v], (p: (nat, nat)) => p.1);
    }
  }

  method HashCount(g: UndirectedGraph, v: nat, row: seq<nat>) returns (numTriangles: nat)
    requires v < g.n && row == g.out.Row(v)
    ensures numTriangles == |Wedges(NeighboursOf(g), v)|
  {
    ghost var N := NeighboursOf(g);
    RowFacts(g, v);
    var neighbours := set u | u in row;
    assert neighbours == N[v];
    numTriangles := 0;
    for i := 0 to |row|
      invariant numTriangles == |WedgesVia(N, v, row[..i])|
    {
      PrefixFacts(N, v, row, i);
      RowFacts(g, row[i]);
      var count := CountCommon(g.out.Row(row[i]), neighbours);
      WedgesViaSnoc(N, v, row[..i], row[i]);
      numTriangles := numTriangles + count;
    }
    WedgesViaAll(N, v, row);
  }

  lemma WedgesViaAll(N: SimpleGraph, v: nat, row: seq<nat>)
    requires v in N && Elements(row) == N[v]
    ensures WedgesVia(N, v, row[..|row|]) == Wedges(N, v)
  {
    assert row[..|row|] == row && forall x | x in N[v] :: x in Elements(row);
  }

  /** The body of the loop of do_lcc_undirected. */
  method HashScore(g: UndirectedGraph, v: nat) returns (score: real)
    requires v < g.n
    ensures score == Coefficient(NeighboursOf(g), v)
  {
    DegreeIsSize(g, v);
    var degree := g.out.Degree(v);
    if degree < 2 {
      return 0.0;
    }
    var numTriangles := HashCount(g, v, g.out.Row(v));
    score := Ratio(numTriangles, degree);
  }

  /** CSR::do_lcc_undirected. */
  method HashScores(g: UndirectedGraph) returns (scores: array<real>)
    ensures fresh(scores) && scores.Length == g.n
    ensures forall x: nat | x < g.n :: scores[x] == Coefficient(NeighboursOf(g), x)
  {
    scores := new real[g.n](_ => 0.0);
    for v := 0 to g.n
      modifies scores
      invariant forall x: nat | x < v :: scores[x] == Coefficient(NeighboursOf(g), x)
    {
      var score := HashScore(g, v);
      scores[v] := score;
    }
  }

  // ---- The sort-merge kernel with a single worker ----

  lemma SharesGrow(g: UndirectedGraph, n1: nat, before: seq<nat>, adds: seq<Add>, after: seq<nat>)
    requires n1 < g.n == |before| && Applied(before, adds, after) && IsTrace(NeighboursOf(g), n1, adds)
    requires forall x: nat | x < g.n :: before[x] == ShareSum(NeighboursOf(g), 0, n1, x)
    ensures forall x: nat | x < g.n :: after[x] == ShareSum(NeighboursOf(g), 0, n1 + 1, x)
  {
    forall x: nat | x < g.n
      ensures after[x] == ShareSum(NeighboursOf(g), 0, n1 + 1, x)
    {
      ShareSumSplit(NeighboursOf(g), 0, n1, n1 + 1, x);
    }
  }

  /** CSR_LCC with one worker; `LccWorkers` has any number of them. */
  method SortMergeScores(g: UndirectedGraph) returns (scores: array<real>)
    ensures fresh(scores) && scores.Length == g.n
    ensures forall x: nat | x < g.n :: scores[x] == Coefficient(NeighboursOf(g), x)
  {
    var counters := new nat[g.n](_ => 0);
    for n1 := 0 to g.n
      invariant forall x: nat | x < g.n :: counters[x] == ShareSum(NeighboursOf(g), 0, n1, x)
    {
      ghost var before := counters[..];
      ghost var adds := ProcessVertex(g, n1, counters);
      SharesGrow(g, n1, before, adds, counters[..]);
      assert forall x: nat | x < g.n :: counters[x] == counters[..][x];
    }
    forall x: nat | x < g.n
      ensures counters[x] == |Wedges(NeighboursOf(g), x)|
    {
      SharesCountWedges(NeighboursOf(g), g.n, x);
    }
    scores := ComputeScores(g, counters);
  }
}
