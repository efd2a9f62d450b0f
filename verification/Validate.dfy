/** The validator of kernel outputs, utility/graphalytics_validate.cpp, from parsed lines on:
    partition equality (lines 285-350) and exact equality (lines 160-198). */
module Validate {
  import opened Options

  datatype Line = Line(vertex: int, value: int)

  datatype Verdict = Pass | Fail

  // ---- ERROR_INIT, ERROR_COUNT and ERROR_EXIT ----

  datatype Errors = Counted(n: nat) | Fatal

  function Report(n: nat, maxNumErrors: nat): Errors {
    if maxNumErrors == 1 then Fatal
    else if maxNumErrors > 1 && n + 1 == maxNumErrors then Fatal
    else Counted(n + 1)
  }

  function Exit(n: nat): Verdict {
    if n > 0 then Fail else Pass
  }

  // ---- Tables ----

  /** The hash map after reading the lines: a later line overwrites an earlier one. */
  ghost function Table(lines: seq<Line>): map<int, int> {
    if lines == [] then map[]
    else Table(lines[..|lines| - 1])[lines[|lines| - 1].vertex := lines[|lines| - 1].value]
  }

  lemma TableSnoc(lines: seq<Line>, i: nat)
    requires i < |lines|
    ensures Table(lines[..i + 1]) == Table(lines[..i])[lines[i].vertex := lines[i].value]
  {
    assert lines[..i + 1][..i] == lines[..i];
  }

  method ReadOverwriting(lines: seq<Line>) returns (table: map<int, int>)
    ensures table == Table(lines)
  {
    table := map[];
    for i := 0 to |lines|
      invariant table == Table(lines[..i])
    {
      TableSnoc(lines, i);
      table := table[lines[i].vertex := lines[i].value];
    }
    assert lines[..|lines|] == lines;
  }

  ghost predicate DistinctVertices(lines: seq<Line>) {
    forall i, j | 0 <= i < j < |lines| :: lines[i].vertex != lines[j].vertex
  }

  ghost function Vertices(lines: seq<Line>): set<int> {
    set l | l in lines :: l.vertex
  }

  lemma {:induction false} VerticesSize(lines: seq<Line>)
    ensures |Vertices(lines)| <= |lines|
    ensures DistinctVertices(lines) <==> |Vertices(lines)| == |lines|
  {
    if lines != [] {
      var front, last := lines[..|lines| - 1], lines[|lines| - 1];
      VerticesSize(front);
      assert lines == front + [last];
      assert Vertices(lines) == Vertices(front) + {last.vertex};
      LastIsNew(lines);
    }
  }

  lemma LastIsNew(lines: seq<Line>)
    requires lines != []
    ensures DistinctVertices(lines) <==>
      DistinctVertices(lines[..|lines| - 1]) && lines[|lines| - 1].vertex !in Vertices(lines[..|lines| - 1])
  {
    var front, last := lines[..|lines| - 1], lines[|lines| - 1];
    if DistinctVertices(front) && last.vertex !in Vertices(front) {
      forall i | 0 <= i < |front|
        ensures lines[i].vertex != last.vertex
      {
        assert front[i] in front;
      }
    }
  }

  /** Some vertex is listed with two different values. */
  ghost predicate Contradictory(lines: seq<Line>) {
    exists i, j :: 0 <= i < j < |lines| && lines[i].vertex == lines[j].vertex && lines[i].value != lines[j].value
  }

  lemma {:induction false} TableHolds(lines: seq<Line>, i: nat)
    requires !Contradictory(lines) && i < |lines|
    ensures lines[i].vertex in Table(lines) && Table(lines)[lines[i].vertex] == lines[i].value
  {
    var last := |lines| - 1;
    if i < last {
      assert lines[i].vertex == lines[last].vertex ==> lines[i].value == lines[last].value;
      TableHolds(lines[..last], i);
      assert lines[..last][i] == lines[i];
    } else {
      assert lines[i] == lines[last];
    }
  }

  lemma {:induction false} TableKeys(lines: seq<Line>)
    ensures Table(lines).Keys == Vertices(lines)
  {
    if lines != [] {
      var front, last := lines[..|lines| - 1], lines[|lines| - 1];
      TableKeys(front);
      assert lines == front + [last];
    }
  }

  lemma {:induction false} FreshVertex(lines: seq<Line>) returns (bound: int)
    ensures forall i | 0 <= i < |lines| :: lines[i].vertex < bound
  {
    if lines == [] {
      bound := 0;
    } else {
      var last := lines[|lines| - 1].vertex;
      var b := FreshVertex(lines[..|lines| - 1]);
      bound := if last < b then b else last + 1;
    }
  }

  lemma SubsetOfSameSize(a: set<int>, b: set<int>)
    requires a <= b && |b| <= |a|
    ensures a == b
  {
    assert b == a + (b - a);
  }

  /** As many distinct vertices as the table holds, all of them in it: the same vertices. */
  lemma SameVerticesIff(res: map<int, int>, ref: seq<Line>)
    requires DistinctVertices(ref)
    ensures (forall i | 0 <= i < |ref| :: ref[i].vertex in res) && |ref| >= |res| <==> Vertices(ref) == res.Keys
  {
    VerticesSize(ref);
    if (forall i | 0 <= i < |ref| :: ref[i].vertex in res) && |ref| >= |res| {
      SubsetOfSameSize(Vertices(ref), res.Keys);
    }
    if Vertices(ref) == res.Keys {
      forall i | 0 <= i < |ref|
        ensures ref[i].vertex in res
      {
        assert ref[i] in ref;
        assert ref[i].vertex in Vertices(ref);
      }
    }
  }

  // ---- Partition equality ----

  /** The lines below i name known vertices, and share a component here exactly when they do there. */
  ghost predicate SameComponents(res: map<int, int>, ref: seq<Line>, i: nat)
    requires i <= |ref|
  {
    && (forall a | 0 <= a < i :: ref[a].vertex in res)
    && forall a, b | 0 <= a < i && 0 <= b < i :: SamePair(res, ref[a], ref[b])
  }

  ghost predicate SamePair(res: map<int, int>, x: Line, y: Line)
    requires x.vertex in res && y.vertex in res
  {
    x.value == y.value <==> res[x.vertex] == res[y.vertex]
  }

  /** ref_mapping and unique_components after i lines without an error. */
  ghost predicate MappingOk(res: map<int, int>, ref: seq<Line>, i: nat, mapping: map<int, int>, unique: set<int>)
    requires i <= |ref| && SameComponents(res, ref, i)
  {
    && (forall a | 0 <= a < i :: ref[a].value in mapping && mapping[ref[a].value] == res[ref[a].vertex] && res[ref[a].vertex] in unique)
    && (forall c | c in mapping :: exists a :: 0 <= a < i && ref[a].value == c)
    && (forall r | r in unique :: exists a :: 0 <= a < i && res[ref[a].vertex] == r)
  }

  lemma UnknownVertex(res: map<int, int>, ref: seq<Line>, i: nat)
    requires i < |ref| && ref[i].vertex !in res
    ensures !SameComponents(res, ref, i + 1)
  {}

  lemma ErrorsStay(res: map<int, int>, ref: seq<Line>, i: nat)
    requires i < |ref| && !SameComponents(res, ref, i)
    ensures !SameComponents(res, ref, i + 1)
  {}

  lemma TakenComponent(res: map<int, int>, ref: seq<Line>, i: nat, mapping: map<int, int>, unique: set<int>)
    requires i < |ref| && SameComponents(res, ref, i) && MappingOk(res, ref, i, mapping, unique)
    requires ref[i].vertex in res && ref[i].value !in mapping && res[ref[i].vertex] in unique
    ensures !SameComponents(res, ref, i + 1)
  {
    var r := res[ref[i].vertex];
    assert r in unique;
    var a :| 0 <= a < i && res[ref[a].vertex] == r;
    assert !SamePair(res, ref[a], ref[i]);
  }

  lemma FreeComponent(res: map<int, int>, ref: seq<Line>, i: nat, mapping: map<int, int>, unique: set<int>)
    requires i < |ref| && SameComponents(res, ref, i) && MappingOk(res, ref, i, mapping, unique)
    requires ref[i].vertex in res && ref[i].value !in mapping && res[ref[i].vertex] !in unique
    ensures SameComponents(res, ref, i + 1)
  {
    forall a | 0 <= a < i
      ensures SamePair(res, ref[a], ref[i]) && SamePair(res, ref[i], ref[a])
    {}
  }

  lemma RecordComponent(res: map<int, int>, ref: seq<Line>, i: nat, mapping: map<int, int>, unique: set<int>)
    requires i < |ref| && SameComponents(res, ref, i) && MappingOk(res, ref, i, mapping, unique)
    requires SameComponents(res, ref, i + 1) && ref[i].value !in mapping
    ensures MappingOk(res, ref, i + 1, mapping[ref[i].value := res[ref[i].vertex]], unique + {res[ref[i].vertex]})
  {
    var mapping' := mapping[ref[i].value := res[ref[i].vertex]];
    forall c | c in mapping'
      ensures exists a :: 0 <= a < i + 1 && ref[a].value == c
    {
      assert c in mapping || c == ref[i].value;
    }
  }

  lemma KnownComponent(res: map<int, int>, ref: seq<Line>, i: nat, mapping: map<int, int>, unique: set<int>)
    requires i < |ref| && SameComponents(res, ref, i) && MappingOk(res, ref, i, mapping, unique)
    requires ref[i].vertex in res && ref[i].value in mapping && mapping[ref[i].value] == res[ref[i].vertex]
    ensures SameComponents(res, ref, i + 1)
  {
    var b :| 0 <= b < i && ref[b].value == ref[i].value;
    forall a | 0 <= a < i
      ensures SamePair(res, ref[a], ref[i]) && SamePair(res, ref[i], ref[a])
    {
      assert SamePair(res, ref[a], ref[b]);
    }
  }

  lemma KeepMapping(res: map<int, int>, ref: seq<Line>, i: nat, mapping: map<int, int>, unique: set<int>)
    requires i < |ref| && SameComponents(res, ref, i) && MappingOk(res, ref, i, mapping, unique)
    requires SameComponents(res, ref, i + 1) && ref[i].value in mapping && mapping[ref[i].value] == res[ref[i].vertex]
    ensures MappingOk(res, ref, i + 1, mapping, unique)
  {
    var b :| 0 <= b < i && ref[b].value == ref[i].value;
    assert res[ref[b].vertex] in unique;
  }

  lemma OtherComponent(res: map<int, int>, ref: seq<Line>, i: nat, mapping: map<int, int>, unique: set<int>)
    requires i < |ref| && SameComponents(res, ref, i) && MappingOk(res, ref, i, mapping, unique)
    requires ref[i].vertex in res && ref[i].value in mapping && mapping[ref[i].value] != res[ref[i].vertex]
    ensures !SameComponents(res, ref, i + 1)
  {
    var b :| 0 <= b < i && ref[b].value == ref[i].value;
    assert !SamePair(res, ref[b], ref[i]);
  }

  /** What equivalence_match accepts. */
  ghost predicate Equivalent(res: map<int, int>, ref: seq<Line>) {
    SameComponents(res, ref, |ref|) && |ref| >= |res|
  }

  /** The reference vertex is looked up in the vertex map, if there is one. */
  function MapVertex(l: Line, vertexMap: Option<map<int, int>>): Line
    requires vertexMap.Some? ==> l.vertex in vertexMap.value
  {
    match vertexMap
    case None => l
    case Some(m) => Line(m[l.vertex], l.value)
  }

  ghost predicate Total(vertexMap: Option<map<int, int>>, lines: seq<Line>) {
    vertexMap.Some? ==> forall l | l in lines :: l.vertex in vertexMap.value
  }

  ghost function Mapped(lines: seq<Line>, vertexMap: Option<map<int, int>>): (r: seq<Line>)
    requires Total(vertexMap, lines)
    ensures |r| == |lines|
  {
    seq(|lines|, i requires 0 <= i < |lines| => MapVertex(lines[i], vertexMap))
  }

  /** One reference line, while no error has been found or after the first. */
  ghost predicate MatchInv(res: map<int, int>, ref: seq<Line>, i: nat, n: nat, mapping: map<int, int>, unique: set<int>) {
    && i <= |ref|
    && (n == 0 <==> SameComponents(res, ref, i))
    && (n == 0 ==> MappingOk(res, ref, i, mapping, unique))
  }

  method MatchLine(res: map<int, int>, ghost ref: seq<Line>, ghost i: nat, l: Line, n: nat, maxNumErrors: nat,
                   mapping: map<int, int>, unique: set<int>)
    returns (errors: Errors, mapping': map<int, int>, unique': set<int>)
    requires MatchInv(res, ref, i, n, mapping, unique) && i < |ref| && l == ref[i]
    ensures errors.Fatal? ==> !SameComponents(res, ref, i + 1)
    ensures errors.Counted? ==> MatchInv(res, ref, i + 1, errors.n, mapping', unique')
  {
    errors, mapping', unique' := Counted(n), mapping, unique;
    if n > 0 {
      ErrorsStay(res, ref, i);
    }
    if l.vertex !in res {
      UnknownVertex(res, ref, i);
      errors := Report(n, maxNumErrors);
    } else if l.value !in mapping {
      if n == 0 && res[l.vertex] in unique {
        TakenComponent(res, ref, i, mapping, unique);
      } else if n == 0 {
        FreeComponent(res, ref, i, mapping, unique);
        RecordComponent(res, ref, i, mapping, unique);
      }
      mapping' := mapping[l.value := res[l.vertex]];
      if res[l.vertex] in unique {
        errors := Report(n, maxNumErrors);
      }
      unique' := unique + {res[l.vertex]};
    } else {
      if n == 0 && mapping[l.value] == res[l.vertex] {
        KnownComponent(res, ref, i, mapping, unique);
        KeepMapping(res, ref, i, mapping, unique);
      } else if n == 0 {
        OtherComponent(res, ref, i, mapping, unique);
      }
      if mapping[l.value] != res[l.vertex] {
        errors := Report(n, maxNumErrors);
      }
    }
  }

  lemma {:induction false} PrefixComponents(res: map<int, int>, ref: seq<Line>, i: nat)
    requires i <= |ref| && !SameComponents(res, ref, i)
    ensures !SameComponents(res, ref, |ref|)
    decreases |ref| - i
  {
    if i < |ref| {
      ErrorsStay(res, ref, i);
      PrefixComponents(res, ref, i + 1);
    }
  }

  /** The verdict does not depend on max_num_errors. The vertex map has to know every reference
      vertex, since the result of find is dereferenced unchecked. */
  method EquivalenceMatch(result: seq<Line>, expected: seq<Line>, vertexMap: Option<map<int, int>>, maxNumErrors: nat)
    returns (verdict: Verdict)
    requires Total(vertexMap, expected)
    ensures verdict == Pass <==> Equivalent(Table(result), Mapped(expected, vertexMap))
    ensures vertexMap.None? && DistinctVertices(expected) ==>
      (verdict == Pass <==> GroupsAlike(Table(expected), Table(result)))
    ensures vertexMap.Some? && DistinctVertices(expected) && InjectiveOn(vertexMap.value, Vertices(expected)) ==>
      (verdict == Pass <==> GroupsThrough(vertexMap.value, Table(expected), Table(result)))
  {
    if DistinctVertices(expected) {
      AcceptedGroups(Table(result), expected, vertexMap);
    }
    var res := ReadOverwriting(result);
    ghost var ref := Mapped(expected, vertexMap);
    var mapping: map<int, int>, unique: set<int> := map[], {};
    var n := 0;
    for lineno := 0 to |expected|
      invariant MatchInv(res, ref, lineno, n, mapping, unique)
    {
      assert expected[lineno] in expected;
      var errors;
      errors, mapping, unique := MatchLine(res, ref, lineno, MapVertex(expected[lineno], vertexMap), n, maxNumErrors, mapping, unique);
      if errors.Fatal? {
        PrefixComponents(res, ref, lineno + 1);
        return Fail;
      }
      n := errors.n;
    }
    if |expected| < |res| {
      var errors := Report(n, maxNumErrors);
      if errors.Fatal? {
        return Fail;
      }
      n := errors.n;
    }
    return Exit(n);
  }

  // ---- What acceptance means ----

  /** A renaming of the reference components into the result components, one to one. */
  ghost predicate Renaming(res: map<int, int>, ref: seq<Line>, f: map<int, int>) {
    && (forall c, d | c in f && d in f && f[c] == f[d] :: c == d)
    && forall l | l in ref :: l.vertex in res && l.value in f && f[l.value] == res[l.vertex]
  }

  lemma {:induction false} BuildRenaming(res: map<int, int>, ref: seq<Line>, i: nat) returns (f: map<int, int>)
    requires i <= |ref| && SameComponents(res, ref, |ref|)
    ensures Renaming(res, ref[..i], f)
    ensures forall c | c in f :: exists a :: 0 <= a < i && ref[a].value == c
  {
    if i == 0 {
      f := map[];
    } else {
      var last := ref[i - 1];
      f := BuildRenaming(res, ref, i - 1);
      var g := f[last.value := res[last.vertex]];
      forall c | c in f
        ensures f[c] == res[last.vertex] <==> c == last.value
      {
        var a :| 0 <= a < i - 1 && ref[a].value == c;
        assert ref[..i - 1][a] == ref[a];
        assert SamePair(res, ref[a], last);
      }
      assert ref[..i] == ref[..i - 1] + [last];
      forall c | c in g
        ensures exists a :: 0 <= a < i && ref[a].value == c
      {
        assert c in f || c == ref[i - 1].value;
      }
      f := g;
    }
  }

  /** What acceptance should mean: the same vertices, and a bijection between the component ids that turns one
      output into the other. */
  ghost predicate SamePartition(res: map<int, int>, ref: seq<Line>) {
    Vertices(ref) == res.Keys && exists f :: Renaming(res, ref, f)
  }

  lemma RenamedIsSame(res: map<int, int>, ref: seq<Line>)
    ensures SameComponents(res, ref, |ref|) <==> exists f :: Renaming(res, ref, f)
  {
    if SameComponents(res, ref, |ref|) {
      var f := BuildRenaming(res, ref, |ref|);
      assert ref[..|ref|] == ref;
    }
    if f :| Renaming(res, ref, f) {
      forall a, b | 0 <= a < |ref| && 0 <= b < |ref|
        ensures ref[a].vertex in res && ref[b].vertex in res && SamePair(res, ref[a], ref[b])
      {
        assert ref[a] in ref && ref[b] in ref;
      }
    }
  }

  /** With distinct reference vertices, acceptance means what it should. */
  lemma EquivalentIffRenamed(res: map<int, int>, ref: seq<Line>)
    requires DistinctVertices(ref)
    ensures Equivalent(res, ref) <==> SamePartition(res, ref)
  {
    SameVerticesIff(res, ref);
    RenamedIsSame(res, ref);
  }

  /** A vertex in two components is in no result: neither accepted nor acceptable. */
  lemma ContradictionIsRejected(res: map<int, int>, ref: seq<Line>)
    requires Contradictory(ref)
    ensures !Equivalent(res, ref) && !SamePartition(res, ref)
  {
    var i, j :| 0 <= i < j < |ref| && ref[i].vertex == ref[j].vertex && ref[i].value != ref[j].value;
    assert SameComponents(res, ref, |ref|) ==> SamePair(res, ref[i], ref[j]);
    RenamedIsSame(res, ref);
  }

  /** A repeated line makes room for a vertex that only the result has. */
  lemma RepetitionHidesVertex(ref: seq<Line>) returns (res: map<int, int>)
    requires !DistinctVertices(ref) && !Contradictory(ref)
    ensures Equivalent(res, ref) && Vertices(ref) != res.Keys
  {
    VerticesSize(ref);
    TableKeys(ref);
    var extra := FreshVertex(ref);
    res := Table(ref)[extra := 0];
    assert res.Keys == Vertices(ref) + {extra};
    forall a | 0 <= a < |ref|
      ensures ref[a].vertex in res && res[ref[a].vertex] == ref[a].value
    {
      TableHolds(ref, a);
      assert ref[a] in ref && ref[a].vertex in Vertices(ref);
    }
    forall a, b | 0 <= a < |ref| && 0 <= b < |ref|
      ensures SamePair(res, ref[a], ref[b])
    {}
  }

  ghost predicate JudgedRight(res: map<int, int>, ref: seq<Line>) {
    Equivalent(res, ref) <==> SamePartition(res, ref)
  }

  /** Every result is judged right if and only if no reference vertex is repeated, or one is repeated with
      different components. */
  lemma JudgedRightIff(ref: seq<Line>)
    ensures (forall res :: JudgedRight(res, ref)) <==> DistinctVertices(ref) || Contradictory(ref)
  {
    if Contradictory(ref) {
      forall res
        ensures JudgedRight(res, ref)
      {
        ContradictionIsRejected(res, ref);
      }
    } else if DistinctVertices(ref) {
      forall res
        ensures JudgedRight(res, ref)
      {
        EquivalentIffRenamed(res, ref);
      }
    } else {
      var res := RepetitionHidesVertex(ref);
      assert !JudgedRight(res, ref);
    }
  }

  /** An injective vertex map keeps distinct reference vertices distinct. */
  lemma MappedStaysDistinct(lines: seq<Line>, vertexMap: Option<map<int, int>>)
    requires Total(vertexMap, lines) && DistinctVertices(lines)
    requires vertexMap.Some? ==> InjectiveOn(vertexMap.value, Vertices(lines))
    ensures DistinctVertices(Mapped(lines, vertexMap))
  {
    var m := Mapped(lines, vertexMap);
    forall i, j | 0 <= i < j < |m|
      ensures m[i].vertex != m[j].vertex
    {
      assert lines[i] in lines && lines[j] in lines;
      assert lines[i].vertex in Vertices(lines) && lines[j].vertex in Vertices(lines);
    }
  }

  /** The map does not identify two of the vertices it knows. */
  ghost predicate InjectiveOn(m: map<int, int>, vertices: set<int>) {
    forall x, y | x in vertices && y in vertices && x in m && y in m && m[x] == m[y] :: x == y
  }

  lemma VerticesOfImage(lines: seq<Line>, m: map<int, int>)
    requires forall l | l in lines :: l.vertex in m
    ensures forall x :: x in Vertices(Mapped(lines, Some(m))) <==> exists v :: v in Vertices(lines) && m[v] == x
  {
    var mapped := Mapped(lines, Some(m));
    forall x
      ensures x in Vertices(mapped) <==> exists v :: v in Vertices(lines) && m[v] == x
    {
      if l :| l in mapped && l.vertex == x {
        var i :| 0 <= i < |mapped| && mapped[i] == l;
        assert lines[i] in lines && lines[i].vertex in Vertices(lines);
      }
      if v :| v in Vertices(lines) && m[v] == x {
        var l :| l in lines && l.vertex == v;
        var i :| 0 <= i < |lines| && lines[i] == l;
        assert mapped[i] in mapped;
      }
    }
  }

  lemma ImageKeys(lines: seq<Line>, m: map<int, int>, res: map<int, int>)
    requires forall l | l in lines :: l.vertex in m
    requires forall v | v in Vertices(lines) :: v in m && m[v] in res
    requires forall x | x in res :: exists v :: v in Vertices(lines) && v in m && m[v] == x
    ensures Vertices(Mapped(lines, Some(m))) == res.Keys
  {
    VerticesOfImage(lines, m);
    forall x
      ensures x in Vertices(Mapped(lines, Some(m))) <==> x in res
    {
      if x in res {
        var v :| v in Vertices(lines) && v in m && m[v] == x;
      }
    }
  }

  /** The result has the vertices m[v] for the vertices v of the reference, and two of them share a component in the
      result exactly when they do in the reference. */
  ghost predicate GroupsThrough(m: map<int, int>, ref: map<int, int>, res: map<int, int>) {
    && (forall v | v in ref :: v in m && m[v] in res)
    && (forall x | x in res :: exists v :: v in ref && m[v] == x)
    && forall v, w | v in ref && w in ref :: ref[v] == ref[w] <==> res[m[v]] == res[m[w]]
  }

  ghost predicate GroupsAlike(ref: map<int, int>, res: map<int, int>) {
    && ref.Keys == res.Keys
    && forall v, w | v in ref && w in ref :: ref[v] == ref[w] <==> res[v] == res[w]
  }

  lemma GroupsPair(lines: seq<Line>, m: map<int, int>, res: map<int, int>, i: nat, j: nat)
    requires DistinctVertices(lines) && Total(Some(m), lines) && i < |lines| && j < |lines| && GroupsThrough(m, Table(lines), res)
    ensures var mapped := Mapped(lines, Some(m));
            mapped[i].vertex in res && mapped[j].vertex in res && SamePair(res, mapped[i], mapped[j])
  {
    TableHolds(lines, i);
    TableHolds(lines, j);
  }

  lemma PairGroups(lines: seq<Line>, m: map<int, int>, res: map<int, int>, v: int, w: int)
    requires DistinctVertices(lines) && Total(Some(m), lines) && SameComponents(res, Mapped(lines, Some(m)), |lines|)
    requires v in Table(lines) && w in Table(lines)
    ensures v in m && w in m && m[v] in res && m[w] in res
    ensures Table(lines)[v] == Table(lines)[w] <==> res[m[v]] == res[m[w]]
  {
    TableKeys(lines);
    var k, l :| k in lines && k.vertex == v && l in lines && l.vertex == w;
    var i: nat, j: nat :| i < |lines| && lines[i] == k && j < |lines| && lines[j] == l;
    TableHolds(lines, i);
    TableHolds(lines, j);
    assert SamePair(res, Mapped(lines, Some(m))[i], Mapped(lines, Some(m))[j]);
  }

  lemma AcceptedThroughMap(res: map<int, int>, lines: seq<Line>, m: map<int, int>)
    requires DistinctVertices(lines) && Total(Some(m), lines) && InjectiveOn(m, Vertices(lines))
    requires Equivalent(res, Mapped(lines, Some(m)))
    ensures GroupsThrough(m, Table(lines), res)
  {
    MappedStaysDistinct(lines, Some(m));
    SameVerticesIff(res, Mapped(lines, Some(m)));
    VerticesOfImage(lines, m);
    TableKeys(lines);
    forall v, w | v in Table(lines) && w in Table(lines)
      ensures v in m && w in m && m[v] in res && m[w] in res
      ensures Table(lines)[v] == Table(lines)[w] <==> res[m[v]] == res[m[w]]
    {
      PairGroups(lines, m, res, v, w);
    }
  }

  lemma GroupsShareComponents(res: map<int, int>, lines: seq<Line>, m: map<int, int>)
    requires DistinctVertices(lines) && Total(Some(m), lines) && GroupsThrough(m, Table(lines), res)
    ensures SameComponents(res, Mapped(lines, Some(m)), |lines|)
  {
    var mapped := Mapped(lines, Some(m));
    forall i, j | 0 <= i < |mapped| && 0 <= j < |mapped|
      ensures mapped[i].vertex in res && mapped[j].vertex in res && SamePair(res, mapped[i], mapped[j])
    {
      GroupsPair(lines, m, res, i, j);
    }
  }

  lemma GroupsAreAccepted(res: map<int, int>, lines: seq<Line>, m: map<int, int>)
    requires DistinctVertices(lines) && Total(Some(m), lines) && InjectiveOn(m, Vertices(lines))
    requires GroupsThrough(m, Table(lines), res)
    ensures Equivalent(res, Mapped(lines, Some(m)))
  {
    TableKeys(lines);
    ImageKeys(lines, m, res);
    MappedStaysDistinct(lines, Some(m));
    SameVerticesIff(res, Mapped(lines, Some(m)));
    GroupsShareComponents(res, lines, m);
  }

  /** With distinct reference vertices and a map that keeps them apart, acceptance means that the map takes the
      partition of the reference to that of the result. */
  lemma EquivalentThroughMap(res: map<int, int>, lines: seq<Line>, m: map<int, int>)
    requires DistinctVertices(lines) && Total(Some(m), lines) && InjectiveOn(m, Vertices(lines))
    ensures Equivalent(res, Mapped(lines, Some(m))) <==> GroupsThrough(m, Table(lines), res)
  {
    if GroupsThrough(m, Table(lines), res) {
      GroupsAreAccepted(res, lines, m);
    } else if Equivalent(res, Mapped(lines, Some(m))) {
      AcceptedThroughMap(res, lines, m);
    }
  }

  /** The same without a map. */
  lemma EquivalentUnmapped(res: map<int, int>, lines: seq<Line>)
    requires DistinctVertices(lines)
    ensures Equivalent(res, Mapped(lines, None)) <==> GroupsAlike(Table(lines), res)
  {
    var id := map v | v in Vertices(lines) :: v;
    TableKeys(lines);
    forall l | l in lines
      ensures l.vertex in id
    {
      assert l.vertex in Vertices(lines);
    }
    EquivalentThroughMap(res, lines, id);
    assert Mapped(lines, Some(id)) == Mapped(lines, None);
    IdentityGroups(id, Table(lines), res);
  }

  lemma IdentityGroups(id: map<int, int>, ref: map<int, int>, res: map<int, int>)
    requires ref.Keys <= id.Keys && forall v | v in ref :: id[v] == v
    ensures GroupsThrough(id, ref, res) <==> GroupsAlike(ref, res)
  {
    if GroupsThrough(id, ref, res) {
      forall x
        ensures x in res <==> x in ref
      {}
    }
    if GroupsAlike(ref, res) {
      forall x | x in res
        ensures exists v :: v in ref && id[v] == x
      {
        assert x in ref && id[x] == x;
      }
      forall v, w | v in ref && w in ref
        ensures id[v] in res && id[w] in res && (ref[v] == ref[w] <==> res[id[v]] == res[id[w]])
      {
        assert v in res && w in res;
      }
    }
  }

  lemma AcceptedGroups(res: map<int, int>, lines: seq<Line>, vertexMap: Option<map<int, int>>)
    requires DistinctVertices(lines) && Total(vertexMap, lines)
    ensures vertexMap.None? ==> (Equivalent(res, Mapped(lines, vertexMap)) <==> GroupsAlike(Table(lines), res))
    ensures vertexMap.Some? && InjectiveOn(vertexMap.value, Vertices(lines)) ==>
      (Equivalent(res, Mapped(lines, vertexMap)) <==> GroupsThrough(vertexMap.value, Table(lines), res))
  {
    match vertexMap
    case None =>
      EquivalentUnmapped(res, lines);
    case Some(m) =>
      if InjectiveOn(m, Vertices(lines)) {
        EquivalentThroughMap(res, lines, m);
      }
  }

  /** A vertex listed twice in the reference hides a vertex that only the result has. */
  lemma RepeatedReferenceHidesVertex()
    ensures var res, ref := Table([Line(1, 7), Line(2, 7)]), [Line(1, 5), Line(1, 5)];
            Equivalent(res, ref) && Vertices(ref) != res.Keys
  {
    var result := [Line(1, 7), Line(2, 7)];
    assert result[..1] == [Line(1, 7)] && result[..1][..0] == [];
    assert Table(result) == map[1 := 7, 2 := 7];
    assert 2 !in Vertices([Line(1, 5), Line(1, 5)]);
  }

  // ---- Exact equality ----

  /** read_results: a vertex given twice is fatal. */
  method ReadOnce(lines: seq<Line>) returns (table: Option<map<int, int>>)
    ensures table == if DistinctVertices(lines) then Some(Table(lines)) else None
  {
    var t: map<int, int> := map[];
    for i := 0 to |lines|
      invariant DistinctVertices(lines[..i]) && t == Table(lines[..i])
      invariant forall v :: v in t <==> exists a :: 0 <= a < i && lines[a].vertex == v
    {
      if lines[i].vertex in t {
        return None;
      }
      TableSnoc(lines, i);
      t := t[lines[i].vertex := lines[i].value];
    }
    assert lines[..|lines|] == lines;
    table := Some(t);
  }

  /** relabel: None stands for the exception. */
  function Relabel(l: Line, vertexMap: Option<map<int, int>>, relabelValue: bool): (r: Option<Line>)
  {
    match vertexMap
    case None => Some(l)
    case Some(m) =>
      if l.vertex !in m || (relabelValue && l.value !in m) then None
      else Some(Line(m[l.vertex], if relabelValue then m[l.value] else l.value))
  }

  /** A reference line that can be relabelled and has its value in the results. */
  ghost predicate Confirmed(res: map<int, int>, l: Line, vertexMap: Option<map<int, int>>, relabelValue: bool) {
    match vertexMap
    case None => l.vertex in res && res[l.vertex] == l.value
    case Some(m) =>
      && l.vertex in m && m[l.vertex] in res
      && if relabelValue then l.value in m && res[m[l.vertex]] == m[l.value] else res[m[l.vertex]] == l.value
  }

  ghost predicate AllConfirmed(res: map<int, int>, ref: seq<Line>, i: nat, vertexMap: Option<map<int, int>>, relabelValue: bool)
    requires i <= |ref|
  {
    forall a | 0 <= a < i :: Confirmed(res, ref[a], vertexMap, relabelValue)
  }

  method ExactLine(res: map<int, int>, lineno: nat, l: Line, n: nat, maxNumErrors: nat) returns (errors: Errors)
    ensures errors == Counted(n) <==> lineno < |res| && l.vertex in res && res[l.vertex] == l.value
    ensures errors.Counted? ==> errors.n >= n
  {
    errors := Counted(n);
    if lineno >= |res| {
      errors := Report(n, maxNumErrors);
    } else if l.vertex !in res {
      errors := Report(n, maxNumErrors);
    } else if l.value != res[l.vertex] {
      errors := Report(n, maxNumErrors);
    }
  }

  method ExactMatch(result: seq<Line>, expected: seq<Line>, maxNumErrors: nat, vertexMap: Option<map<int, int>>, relabelValue: bool)
    returns (verdict: Verdict)
    ensures verdict == Pass <==>
      DistinctVertices(result) && |expected| == |Table(result)|
      && AllConfirmed(Table(result), expected, |expected|, vertexMap, relabelValue)
    ensures vertexMap.None? && DistinctVertices(expected) ==>
      (verdict == Pass <==> DistinctVertices(result) && Table(result) == Table(expected))
    ensures vertexMap.Some? && DistinctVertices(expected) && InjectiveOn(vertexMap.value, Vertices(expected)) ==>
      (verdict == Pass <==> DistinctVertices(result) && IsImage(vertexMap.value, relabelValue, Table(expected), Table(result)))
  {
    if DistinctVertices(expected) {
      AcceptedTables(Table(result), expected, vertexMap, relabelValue);
    }
    var table := ReadOnce(result);
    if table.None? {
      return Fail;
    }
    var res := table.value;
    var n := 0;
    for lineno := 0 to |expected|
      invariant n == 0 <==> lineno <= |res| && AllConfirmed(res, expected, lineno, vertexMap, relabelValue)
    {
      var t := Relabel(expected[lineno], vertexMap, relabelValue);
      if t.None? {
        return Fail;
      }
      var errors := ExactLine(res, lineno, t.value, n, maxNumErrors);
      if errors.Fatal? {
        return Fail;
      }
      n := errors.n;
    }
    if |expected| < |res| {
      var errors := Report(n, maxNumErrors);
      if errors.Fatal? {
        return Fail;
      }
      n := errors.n;
    }
    return Exit(n);
  }

  /** What exact_match accepts, for a reference that is already relabelled. */
  ghost predicate ExactlyConfirmed(res: map<int, int>, ref: seq<Line>) {
    |ref| == |res| && AllConfirmed(res, ref, |ref|, None, false)
  }

  lemma ConfirmedIsEqual(res: map<int, int>, ref: seq<Line>)
    requires DistinctVertices(ref) && ExactlyConfirmed(res, ref)
    ensures Table(ref) == res
  {
    SameVerticesIff(res, ref);
    TableKeys(ref);
    forall i | 0 <= i < |ref|
      ensures ref[i].vertex in res
    {
      assert Confirmed(res, ref[i], None, false);
    }
    forall v | v in res
      ensures v in Table(ref) && Table(ref)[v] == res[v]
    {
      var l :| l in ref && l.vertex == v;
      var i :| 0 <= i < |ref| && ref[i] == l;
      assert Confirmed(res, ref[i], None, false);
      TableHolds(ref, i);
    }
  }

  /** With distinct reference vertices, acceptance is equality of the two tables. */
  lemma ExactIsMapEquality(res: map<int, int>, ref: seq<Line>)
    requires DistinctVertices(ref)
    ensures ExactlyConfirmed(res, ref) <==> Table(ref) == res
  {
    VerticesSize(ref);
    TableKeys(ref);
    if Table(ref) == res {
      forall i | 0 <= i < |ref|
        ensures Confirmed(res, ref[i], None, false)
      {
        TableHolds(ref, i);
      }
    } else if ExactlyConfirmed(res, ref) {
      ConfirmedIsEqual(res, ref);
    }
  }

  ghost predicate ExactlyRight(res: map<int, int>, ref: seq<Line>) {
    ExactlyConfirmed(res, ref) <==> Table(ref) == res
  }

  /** Every result is judged right if and only if no reference vertex is repeated: the very table of a reference
      with a repetition is rejected. */
  lemma ExactlyRightIff(ref: seq<Line>)
    ensures (forall res :: ExactlyRight(res, ref)) <==> DistinctVertices(ref)
  {
    if DistinctVertices(ref) {
      forall res
        ensures ExactlyRight(res, ref)
      {
        ExactIsMapEquality(res, ref);
      }
    } else {
      VerticesSize(ref);
      TableKeys(ref);
      assert !ExactlyRight(Table(ref), ref);
    }
  }

  // ---- Exact equality through a vertex map ----

  /** res is the table ref with every vertex v moved to m[v], and every value x replaced by m[x] if the values are
      vertices too. The map has to know them. */
  ghost predicate IsImage(m: map<int, int>, relabelValue: bool, ref: map<int, int>, res: map<int, int>) {
    && (forall v | v in ref :: v in m && m[v] in res)
    && (forall x | x in res :: exists v :: v in ref && m[v] == x)
    && (relabelValue ==> forall v | v in ref :: ref[v] in m && res[m[v]] == m[ref[v]])
    && (!relabelValue ==> forall v | v in ref :: res[m[v]] == ref[v])
  }

  lemma ImageConfirms(res: map<int, int>, ref: seq<Line>, m: map<int, int>, relabelValue: bool)
    requires DistinctVertices(ref) && InjectiveOn(m, Vertices(ref)) && IsImage(m, relabelValue, Table(ref), res)
    ensures |ref| == |res| && AllConfirmed(res, ref, |ref|, Some(m), relabelValue)
  {
    TableKeys(ref);
    forall i | 0 <= i < |ref|
      ensures Confirmed(res, ref[i], Some(m), relabelValue)
    {
      TableHolds(ref, i);
    }
    forall l | l in ref
      ensures l.vertex in m
    {
      assert l.vertex in Vertices(ref);
    }
    MappedStaysDistinct(ref, Some(m));
    ImageKeys(ref, m, res);
    VerticesSize(Mapped(ref, Some(m)));
  }

  lemma ConfirmedIsImage(res: map<int, int>, ref: seq<Line>, m: map<int, int>, relabelValue: bool)
    requires DistinctVertices(ref) && InjectiveOn(m, Vertices(ref))
    requires |ref| == |res| && AllConfirmed(res, ref, |ref|, Some(m), relabelValue)
    ensures IsImage(m, relabelValue, Table(ref), res)
  {
    TableKeys(ref);
    forall i | 0 <= i < |ref|
      ensures Confirmed(res, ref[i], Some(m), relabelValue) && Table(ref)[ref[i].vertex] == ref[i].value
    {
      TableHolds(ref, i);
    }
    MappedStaysDistinct(ref, Some(m));
    VerticesOfImage(ref, m);
    SameVerticesIff(res, Mapped(ref, Some(m)));
    forall v | v in Table(ref)
      ensures exists i :: 0 <= i < |ref| && ref[i].vertex == v
    {
      var l :| l in ref && l.vertex == v;
    }
  }

  /** With distinct reference vertices and a map that keeps them apart, acceptance is equality with the image of the
      reference table under the map. A vertex or a value unknown to the map is never accepted. */
  lemma ExactThroughMap(res: map<int, int>, ref: seq<Line>, m: map<int, int>, relabelValue: bool)
    requires DistinctVertices(ref) && InjectiveOn(m, Vertices(ref))
    ensures |ref| == |res| && AllConfirmed(res, ref, |ref|, Some(m), relabelValue) <==> IsImage(m, relabelValue, Table(ref), res)
  {
    if IsImage(m, relabelValue, Table(ref), res) {
      ImageConfirms(res, ref, m, relabelValue);
    } else if |ref| == |res| && AllConfirmed(res, ref, |ref|, Some(m), relabelValue) {
      ConfirmedIsImage(res, ref, m, relabelValue);
    }
  }

  lemma AcceptedTables(res: map<int, int>, ref: seq<Line>, vertexMap: Option<map<int, int>>, relabelValue: bool)
    requires DistinctVertices(ref)
    ensures vertexMap.None? ==>
      (|ref| == |res| && AllConfirmed(res, ref, |ref|, vertexMap, relabelValue) <==> res == Table(ref))
    ensures vertexMap.Some? && InjectiveOn(vertexMap.value, Vertices(ref)) ==>
      (|ref| == |res| && AllConfirmed(res, ref, |ref|, vertexMap, relabelValue)
       <==> IsImage(vertexMap.value, relabelValue, Table(ref), res))
  {
    match vertexMap
    case None =>
      ExactIsMapEquality(res, ref);
      assert forall l :: Confirmed(res, l, None, relabelValue) == Confirmed(res, l, None, false);
    case Some(m) =>
      if InjectiveOn(m, Vertices(ref)) {
        ExactThroughMap(res, ref, m, relabelValue);
      }
  }

  /** A repeated reference line makes up the count for a vertex that only the result has. */
  lemma RepeatedLineHidesVertex()
    ensures var res, ref := Table([Line(1, 7), Line(2, 9)]), [Line(1, 7), Line(1, 7)];
            |ref| == |res| && AllConfirmed(res, ref, 2, None, false) && Table(ref) != res
  {
    var result, ref := [Line(1, 7), Line(2, 9)], [Line(1, 7), Line(1, 7)];
    assert result[..1] == [Line(1, 7)] && result[..1][..0] == [];
    assert Table(result) == map[1 := 7, 2 := 9];
    TableKeys(ref);
    assert 2 !in Vertices(ref);
  }
}
