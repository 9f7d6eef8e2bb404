/**
 * The two sample digraphs of `concom.py` and what `concom2` makes of them. Both
 * symmetrise to the same undirected graph, a triangle on 0, 1, 2 and an edge 3 - 4,
 * and the breadth-first order leaves exactly one possible answer for it.
 */
module Concom {
  import opened Common
  import opened Components

  /** Sample `A`: edges 0 -> 2, 1 -> 0, 1 -> 2, 4 -> 3. */
  const SampleA: seq<seq<nat>> :=
    [[0, 0, 1, 0, 0],
     [1, 0, 1, 0, 0],
     [0, 0, 0, 0, 0],
     [0, 0, 0, 0, 0],
     [0, 0, 0, 1, 0]]

  /** Sample `B`: edges 0 -> 2, 1 -> 0, 2 -> 1, 4 -> 3 (a directed cycle on 0, 1, 2). */
  const SampleB: seq<seq<nat>> :=
    [[0, 0, 1, 0, 0],
     [1, 0, 0, 0, 0],
     [0, 1, 0, 0, 0],
     [0, 0, 0, 0, 0],
     [0, 0, 0, 1, 0]]

  /** The undirected graph both samples become. */
  const Triangle: seq<seq<nat>> :=
    [[0, 1, 1, 0, 0],
     [1, 0, 1, 0, 0],
     [1, 1, 0, 0, 0],
     [0, 0, 0, 0, 1],
     [0, 0, 0, 1, 0]]

  /** The expected result of `concom2` on either sample. */
  const SampleComponents: map<nat, seq<nat>> := map[0 := [0, 1, 2], 1 := [3, 4]]

  /** Forgetting edge directions turns both samples into `Triangle`. */
  lemma SamplesSymmetrise()
    ensures IsSquare(SampleA) && IsSquare(SampleB)
    ensures MakeUndir(SampleA) == Triangle
    ensures MakeUndir(SampleB) == Triangle
  {
    assert IsSquare(SampleA) && IsSquare(SampleB);
    var ga := MakeUndir(SampleA);
    var gb := MakeUndir(SampleB);
    forall i | 0 <= i < 5
      ensures ga[i] == Triangle[i] && gb[i] == Triangle[i]
    {
    }
  }

  /** Two vertices of `Triangle` are adjacent exactly when they differ and lie on the same side of 3. */
  lemma TriangleEdges()
    ensures IsSquare(Triangle) && |Triangle| == 5
    ensures forall u, v :: 0 <= u < 5 && 0 <= v < 5 ==>
      (Triangle[u][v] != 0 <==> u != v && (u < 3 <==> v < 3))
  {
  }

  /** A list in discovery order never leaves the side of 3 its first vertex is on. */
  lemma {:induction false} StaysOnSide(xs: seq<nat>, par: seq<nat>, m: nat)
    requires IsSquare(Triangle) && |Triangle| == 5
    requires DiscoveredBy(Triangle, xs, par)
    requires m < |xs|
    ensures xs[m] < 3 <==> xs[0] < 3
    decreases m
  {
    TriangleEdges();
    if m > 0 {
      StaysOnSide(xs, par, par[m]);
      assert Triangle[xs[par[m]]][xs[m]] != 0;
    }
  }

  /** A list without repeats, drawn from `s`, is no longer than `s`. */
  lemma FitsIn(xs: seq<nat>, s: set<nat>)
    requires forall i, j :: 0 <= i < j < |xs| ==> xs[i] != xs[j]
    requires forall i :: 0 <= i < |xs| ==> xs[i] in s
    ensures |xs| <= |s|
  {
    SetOfSeqCard(xs);
    var elems := set x | x in xs;
    assert s == elems + (s - elems);
    assert elems * (s - elems) == {};
  }

  /** What `ComponentLists` says about the single list `comps[c]`. */
  lemma ListFacts(comps: seq<seq<nat>>, c: nat)
    requires IsSquare(Triangle)
    requires ComponentLists(Triangle, comps)
    requires c < |comps|
    ensures |comps[c]| > 0
    ensures forall j :: 0 <= j < |comps[c]| ==> comps[c][0] <= comps[c][j] < 5
    ensures forall i, j :: 0 <= i < j < |comps[c]| ==> comps[c][i] != comps[c][j]
    ensures ClosedList(Triangle, comps[c]) && BfsOrder(Triangle, comps[c])
  {
    TriangleEdges();
  }

  /** A list in discovery order from 0 is the triangle, in ascending order. */
  lemma FirstList(xs: seq<nat>)
    requires IsSquare(Triangle)
    requires |xs| > 0 && xs[0] == 0
    requires forall j :: 0 <= j < |xs| ==> xs[j] < 5
    requires forall i, j :: 0 <= i < j < |xs| ==> xs[i] != xs[j]
    requires ClosedList(Triangle, xs) && BfsOrder(Triangle, xs)
    ensures xs == [0, 1, 2]
  {
    TriangleEdges();
    var par :| DiscoveredBy(Triangle, xs, par);
    forall m | 0 <= m < |xs|
      ensures xs[m] in {0, 1, 2}
    {
      StaysOnSide(xs, par, m);
    }
    FitsIn(xs, {0, 1, 2});
    assert 1 in xs && 2 in xs by {
      assert Triangle[xs[0]][1] != 0 && Triangle[xs[0]][2] != 0;
    }
    var j1 :| 0 <= j1 < |xs| && xs[j1] == 1;
    var j2 :| 0 <= j2 < |xs| && xs[j2] == 2;
    assert |xs| == 3;
    assert Adjacent(Triangle, xs[0], xs[2]);
    assert par[1] == 0 && par[2] == 0;
    assert xs[1] < xs[2];
  }

  /** The list holding 0 comes first and starts with 0. */
  lemma FirstRoot(comps: seq<seq<nat>>)
    requires IsSquare(Triangle)
    requires ComponentLists(Triangle, comps)
    ensures |comps| > 0 && comps[0][0] == 0
  {
    assert Covered(comps, 0);
    var c0 :| 0 <= c0 < |comps| && 0 in comps[c0];
    assert comps[c0][0] == 0;
    assert comps[0][0] <= comps[c0][0];
  }

  /** The list starting with 0 is the triangle, in ascending order. */
  lemma FirstComponent(comps: seq<seq<nat>>)
    requires IsSquare(Triangle)
    requires ComponentLists(Triangle, comps)
    ensures |comps| > 0 && comps[0] == [0, 1, 2]
  {
    FirstRoot(comps);
    ListFacts(comps, 0);
    FirstList(comps[0]);
  }

  /** Once the triangle is taken, every later list keeps to vertices 3 and 4. */
  lemma LaterListsAbove(comps: seq<seq<nat>>)
    requires IsPartition(comps, 5)
    requires |comps| > 0 && comps[0] == [0, 1, 2]
    ensures forall d, j :: 0 < d < |comps| && 0 <= j < |comps[d]| ==> 3 <= comps[d][j] < 5
  {
    forall d, j | 0 < d < |comps| && 0 <= j < |comps[d]|
      ensures 3 <= comps[d][j] < 5
    {
      var x := comps[d][j];
      var y := if x < 3 then x else 0;
      assert comps[0][y] == y;
    }
  }

  /** The list holding 3 comes second and starts with 3. */
  lemma SecondRoot(comps: seq<seq<nat>>)
    requires IsSquare(Triangle)
    requires ComponentLists(Triangle, comps)
    requires |comps| > 0 && comps[0] == [0, 1, 2]
    ensures |comps| > 1 && comps[1][0] == 3
  {
    LaterListsAbove(comps);
    assert Covered(comps, 3);
    var c3 :| 0 <= c3 < |comps| && 3 in comps[c3];
    assert comps[c3][0] == 3;
    assert comps[1][0] <= comps[c3][0];
  }

  /** A list in discovery order from 3 is the edge 3 - 4. */
  lemma SecondList(ys: seq<nat>)
    requires IsSquare(Triangle)
    requires |ys| > 0 && ys[0] == 3
    requires forall j :: 0 <= j < |ys| ==> ys[j] < 5
    requires forall i, j :: 0 <= i < j < |ys| ==> ys[i] != ys[j]
    requires ClosedList(Triangle, ys) && BfsOrder(Triangle, ys)
    ensures ys == [3, 4]
  {
    TriangleEdges();
    var par :| DiscoveredBy(Triangle, ys, par);
    forall m | 0 <= m < |ys|
      ensures ys[m] in {3, 4}
    {
      StaysOnSide(ys, par, m);
    }
    FitsIn(ys, {3, 4});
    assert 4 in ys by {
      assert Triangle[ys[0]][4] != 0;
    }
  }

  /** With lists [0, 1, 2] and [3, 4] in place no vertex is left for a third. */
  lemma NoThirdList(comps: seq<seq<nat>>)
    requires IsPartition(comps, 5)
    requires |comps| > 1 && comps[0] == [0, 1, 2] && comps[1] == [3, 4]
    ensures |comps| == 2
  {
    LaterListsAbove(comps);
    var x := comps[|comps| - 1][0];
    assert comps[1][x - 3] == x;
  }

  /** After the triangle comes the edge 3 - 4, and nothing else. */
  lemma SecondComponent(comps: seq<seq<nat>>)
    requires IsSquare(Triangle)
    requires ComponentLists(Triangle, comps)
    requires |comps| > 0 && comps[0] == [0, 1, 2]
    ensures comps == [[0, 1, 2], [3, 4]]
  {
    SecondRoot(comps);
    ListFacts(comps, 1);
    SecondList(comps[1]);
    NoThirdList(comps);
  }

  /** The breadth-first order pins the answer down: on `Triangle` only one list of lists qualifies. */
  lemma TriangleComponents(comps: seq<seq<nat>>)
    requires IsSquare(Triangle)
    requires ComponentLists(Triangle, comps)
    ensures comps == [[0, 1, 2], [3, 4]]
  {
    FirstComponent(comps);
    SecondComponent(comps);
  }

  /** `compA = concom2(A)` and `compB = concom2(B)`: both are {0: [0, 1, 2], 1: [3, 4]}. */
  method Samples() returns (compA: map<nat, seq<nat>>, compB: map<nat, seq<nat>>)
    ensures compA == SampleComponents
    ensures compB == SampleComponents
  {
    SamplesSymmetrise();
    compA := ConnectedComponents(SampleA);
    SampleResult(MakeUndir(SampleA), compA);
    compB := ConnectedComponents(SampleB);
    SampleResult(MakeUndir(SampleB), compB);
  }

  /** Any dictionary keyed 0 .. c-1 whose lists are components of `Triangle` is `SampleComponents`. */
  lemma SampleResult(g: seq<seq<nat>>, comps: map<nat, seq<nat>>)
    requires g == Triangle && IsSquare(g)
    requires forall c: nat :: c in comps <==> c < |comps|
    requires ComponentLists(g, DictLists(comps))
    ensures comps == SampleComponents
  {
    TriangleComponents(DictLists(comps));
    SameDict(comps);
  }

  /** A dictionary keyed 0, 1 whose lists read [[0, 1, 2], [3, 4]] is `SampleComponents`. */
  lemma SameDict(comps: map<nat, seq<nat>>)
    requires forall c: nat :: c in comps <==> c < |comps|
    requires DictLists(comps) == [[0, 1, 2], [3, 4]]
    ensures comps == SampleComponents
  {
    assert comps[0] == [0, 1, 2] && comps[1] == [3, 4];
    assert comps.Keys == {0, 1};
  }
}
