/**
 * Graph clustering: `make_undir` symmetrises the voted adjacency, and the
 * breadth-first scan of `strongly_connected` (identical to `concom2`) splits the
 * vertices 0 .. n-1 into connected components, numbered in discovery order.
 */
module Components {
  import opened Common

  /** `make_undir`: (i, j) is 1 when `adj + adj.T` is nonzero there, else 0. */
  function MakeUndir(adj: seq<seq<nat>>): (g: seq<seq<nat>>)
    requires IsSquare(adj)
    ensures IsSquare(g) && |g| == |adj|
    ensures forall i, j :: 0 <= i < |adj| && 0 <= j < |adj| ==> g[i][j] <= 1
    ensures forall i, j :: 0 <= i < |adj| && 0 <= j < |adj| ==>
      (g[i][j] == 1 <==> adj[i][j] != 0 || adj[j][i] != 0)
  {
    seq(|adj|, i requires 0 <= i < |adj| =>
      seq(|adj|, j requires 0 <= j < |adj| => if adj[i][j] + adj[j][i] != 0 then 1 else 0))
  }

  /** An edge from `u` to `v`. */
  predicate Adjacent(g: seq<seq<nat>>, u: nat, v: nat)
    requires IsSquare(g) && u < |g| && v < |g|
  {
    g[u][v] != 0
  }

  /** An undirected graph: every edge goes both ways. */
  predicate Symmetric(g: seq<seq<nat>>)
    requires IsSquare(g)
  {
    forall i, j :: 0 <= i < |g| && 0 <= j < |g| ==> g[i][j] == g[j][i]
  }

  /** The symmetrised graph is undirected, and symmetrising it again changes nothing. */
  lemma MakeUndirSymmetric(adj: seq<seq<nat>>)
    requires IsSquare(adj)
    ensures Symmetric(MakeUndir(adj))
    ensures MakeUndir(MakeUndir(adj)) == MakeUndir(adj)
  {
    var g := MakeUndir(adj);
    var gg := MakeUndir(g);
    forall i | 0 <= i < |adj|
      ensures gg[i] == g[i]
    {
    }
  }

  /** `p` walks along edges of `g`. */
  ghost predicate IsPath(g: seq<seq<nat>>, p: seq<nat>)
    requires IsSquare(g)
  {
    && |p| > 0
    && (forall t :: 0 <= t < |p| ==> p[t] < |g|)
    && (forall t :: 0 <= t < |p| - 1 ==> g[p[t]][p[t + 1]] != 0)
  }

  /** Some path of `g` leads from `u` to `v`. */
  ghost predicate Connected(g: seq<seq<nat>>, u: nat, v: nat)
    requires IsSquare(g)
  {
    exists p :: IsPath(g, p) && p[0] == u && p[|p| - 1] == v
  }

  lemma ConnectedRefl(g: seq<seq<nat>>, u: nat)
    requires IsSquare(g) && u < |g|
    ensures Connected(g, u, u)
  {
    assert IsPath(g, [u]);
  }

  lemma ConnectedSymmetric(g: seq<seq<nat>>, u: nat, v: nat)
    requires IsSquare(g) && Symmetric(g)
    requires Connected(g, u, v)
    ensures Connected(g, v, u)
  {
    var p :| IsPath(g, p) && p[0] == u && p[|p| - 1] == v;
    var rev := seq(|p|, t requires 0 <= t < |p| => p[|p| - 1 - t]);
    forall t | 0 <= t < |rev| - 1
      ensures g[rev[t]][rev[t + 1]] != 0
    {
      assert g[p[|p| - 2 - t]][p[|p| - 1 - t]] != 0;
    }
    assert IsPath(g, rev);
  }

  lemma ConnectedTransitive(g: seq<seq<nat>>, u: nat, v: nat, w: nat)
    requires IsSquare(g)
    requires Connected(g, u, v) && Connected(g, v, w)
    ensures Connected(g, u, w)
  {
    var p :| IsPath(g, p) && p[0] == u && p[|p| - 1] == v;
    var q :| IsPath(g, q) && q[0] == v && q[|q| - 1] == w;
    var pq := p + q[1..];
    forall t | 0 <= t < |pq| - 1
      ensures g[pq[t]][pq[t + 1]] != 0
    {
      if t < |p| - 1 {
        assert pq[t] == p[t] && pq[t + 1] == p[t + 1];
      } else {
        assert pq[t] == q[t - |p| + 1] && pq[t + 1] == q[t - |p| + 2];
      }
    }
    assert IsPath(g, pq);
  }

  /** Every edge leaving a member of `xs` ends in `xs`. */
  ghost predicate ClosedList(g: seq<seq<nat>>, xs: seq<nat>)
    requires IsSquare(g)
  {
    forall j, u :: 0 <= j < |xs| && 0 <= u < |g| && xs[j] < |g| && g[xs[j]][u] != 0 ==> u in xs
  }

  /** A list closed under edges holds everything connected to its members. */
  lemma ClosedListHoldsConnected(g: seq<seq<nat>>, xs: seq<nat>, u: nat, v: nat)
    requires IsSquare(g)
    requires ClosedList(g, xs)
    requires u in xs
    requires Connected(g, u, v)
    ensures v in xs
  {
    var p :| IsPath(g, p) && p[0] == u && p[|p| - 1] == v;
    var t := 0;
    while t < |p| - 1
      invariant 0 <= t < |p|
      invariant p[t] in xs
    {
      var j :| 0 <= j < |xs| && xs[j] == p[t];
      assert g[xs[j]][p[t + 1]] != 0;
      t := t + 1;
    }
  }

  /**
   * `xs` lists a component in breadth-first discovery order: every later member `xs[m]`
   * was found from `xs[par[m]]`, the earliest member it is adjacent to; members appear
   * grouped by discoverer in list order, and those with one discoverer in ascending order.
   */
  ghost predicate DiscoveredBy(g: seq<seq<nat>>, xs: seq<nat>, par: seq<nat>)
    requires IsSquare(g)
  {
    && |par| == |xs|
    && (forall m :: 0 <= m < |xs| ==> xs[m] < |g|)
    && (forall m {:trigger par[m]} :: 1 <= m < |xs| ==> par[m] < m && g[xs[par[m]]][xs[m]] != 0)
    && (forall m, j {:trigger Adjacent(g, xs[j], xs[m])} :: 1 <= m < |xs| && 0 <= j < par[m] ==> !Adjacent(g, xs[j], xs[m]))
    && (forall m, m' {:trigger par[m], par[m']} :: 1 <= m < m' < |xs| ==> par[m] <= par[m'])
    && (forall m, m' {:trigger par[m], par[m']} :: 1 <= m < m' < |xs| && par[m] == par[m'] ==> xs[m] < xs[m'])
  }

  /** `xs` is in breadth-first discovery order. */
  ghost predicate BfsOrder(g: seq<seq<nat>>, xs: seq<nat>)
    requires IsSquare(g)
  {
    exists par :: DiscoveredBy(g, xs, par)
  }

  /** Some list holds `v`. */
  ghost predicate Covered(comps: seq<seq<nat>>, v: nat)
  {
    exists c :: 0 <= c < |comps| && v in comps[c]
  }

  /**
   * The lists partition 0 .. n-1: none is empty, each holds vertices below n, every
   * vertex occurs, and no vertex occurs twice in one list or in two lists.
   */
  ghost predicate IsPartition(comps: seq<seq<nat>>, n: nat)
  {
    && (forall c :: 0 <= c < |comps| ==> |comps[c]| > 0)
    && (forall c, j :: 0 <= c < |comps| && 0 <= j < |comps[c]| ==> comps[c][j] < n)
    && (forall v :: 0 <= v < n ==> Covered(comps, v))
    && (forall c, d, j, k ::
          (0 <= c < |comps| && 0 <= d < |comps| && 0 <= j < |comps[c]| && 0 <= k < |comps[d]| && comps[c][j] == comps[d][k])
          ==> c == d && j == k)
  }

  /**
   * What the breadth-first scan guarantees: a partition whose lists each start with
   * their smallest vertex, ordered by that first vertex, closed under edges, and
   * connected to their first vertex.
   */
  ghost predicate ComponentLists(g: seq<seq<nat>>, comps: seq<seq<nat>>)
    requires IsSquare(g)
  {
    && IsPartition(comps, |g|)
    && (forall c, j :: 0 <= c < |comps| && 0 <= j < |comps[c]| ==> comps[c][0] <= comps[c][j])
    && (forall c, d :: 0 <= c < d < |comps| ==> comps[c][0] < comps[d][0])
    && (forall c :: 0 <= c < |comps| ==> ClosedList(g, comps[c]))
    && (forall c, j :: 0 <= c < |comps| && 0 <= j < |comps[c]| ==> Connected(g, comps[c][0], comps[c][j]))
    && (forall c :: 0 <= c < |comps| ==> BfsOrder(g, comps[c]))
  }

  /** Two vertices share a list exactly when a path of the undirected graph joins them. */
  lemma SameComponentIffConnected(g: seq<seq<nat>>, comps: seq<seq<nat>>, c: nat, u: nat, v: nat)
    requires IsSquare(g) && Symmetric(g)
    requires ComponentLists(g, comps)
    requires c < |comps| && u in comps[c]
    requires v < |g|
    ensures v in comps[c] <==> Connected(g, u, v)
  {
    var root := comps[c][0];
    var ju :| 0 <= ju < |comps[c]| && comps[c][ju] == u;
    assert Connected(g, root, u);
    if v in comps[c] {
      var jv :| 0 <= jv < |comps[c]| && comps[c][jv] == v;
      assert Connected(g, root, v);
      ConnectedSymmetric(g, root, u);
      ConnectedTransitive(g, u, root, v);
    }
    if Connected(g, u, v) {
      assert ClosedList(g, comps[c]);
      ClosedListHoldsConnected(g, comps[c], u, v);
    }
  }

  // ---------------------------------------------------------------------------
  // The breadth-first scan, with the ghost bookkeeping its proof needs: `owner[v]`
  // and `pos[v]` say where a visited vertex sits (list `owner[v]`, index `pos[v]`;
  // `owner[v] == |comps|` means the component under construction, `cur`).

  /** Visited vertex `v` sits at `pos` of list `owner` (a finished list, or `cur`). */
  ghost predicate Placed(comps: seq<seq<nat>>, cur: seq<nat>, owner: nat, pos: nat, v: nat)
  {
    || (owner < |comps| && pos < |comps[owner]| && comps[owner][pos] == v)
    || (owner == |comps| && pos < |cur| && cur[pos] == v)
  }

  /** Every member of every list is visited and recorded at its place. */
  ghost predicate Tracked(n: nat, comps: seq<seq<nat>>, cur: seq<nat>,
                          visited: seq<bool>, owner: seq<nat>, pos: seq<nat>)
  {
    && |visited| == n && |owner| == n && |pos| == n
    && (forall c, j :: 0 <= c < |comps| && 0 <= j < |comps[c]| ==>
          comps[c][j] < n && visited[comps[c][j]] && owner[comps[c][j]] == c && pos[comps[c][j]] == j)
    && (forall j :: 0 <= j < |cur| ==>
          cur[j] < n && visited[cur[j]] && owner[cur[j]] == |comps| && pos[cur[j]] == j)
    && (forall v :: 0 <= v < n && visited[v] ==> Placed(comps, cur, owner[v], pos[v], v))
  }

  /** The finished lists are non-empty, led by their smallest member, and ordered by it. */
  ghost predicate Shaped(comps: seq<seq<nat>>)
  {
    && (forall c :: 0 <= c < |comps| ==> |comps[c]| > 0)
    && (forall c, j :: 0 <= c < |comps| && 0 <= j < |comps[c]| ==> comps[c][0] <= comps[c][j])
    && (forall c, d :: 0 <= c < d < |comps| ==> comps[c][0] < comps[d][0])
  }

  /** Every neighbour of a member of finished list `c` is visited and owned by `c`. */
  ghost predicate ClosedSoFar(g: seq<seq<nat>>, comps: seq<seq<nat>>, visited: seq<bool>, owner: seq<nat>)
    requires IsSquare(g)
  {
    forall c, j, u ::
      (0 <= c < |comps| && 0 <= j < |comps[c]| && 0 <= u < |g| && comps[c][j] < |g| && g[comps[c][j]][u] != 0) ==>
      (u < |visited| && u < |owner| && visited[u] && owner[u] == c)
  }

  /** Every member of a finished list is connected to the list's first member. */
  ghost predicate ConnectedSoFar(g: seq<seq<nat>>, comps: seq<seq<nat>>)
    requires IsSquare(g)
  {
    forall c, j :: 0 <= c < |comps| && 0 < |comps[c]| && 0 <= j < |comps[c]| ==> Connected(g, comps[c][0], comps[c][j])
  }

  /** The bookkeeping and the guarantees of the finished lists. */
  ghost predicate Inv(g: seq<seq<nat>>, comps: seq<seq<nat>>, cur: seq<nat>,
                      visited: seq<bool>, owner: seq<nat>, pos: seq<nat>)
    requires IsSquare(g)
  {
    && Tracked(|g|, comps, cur, visited, owner, pos)
    && Shaped(comps)
    && ClosedSoFar(g, comps, visited, owner)
    && ConnectedSoFar(g, comps)
  }

  /**
   * The component under construction: `cur` starts at `root`, holds no vertex below it,
   * `q` is its unexpanded tail `cur[head..]`, the first `done` members have had all
   * their neighbours visited, and `paths[j]` leads from `root` to `cur[j]`.
   */
  ghost predicate Frontier(g: seq<seq<nat>>, comps: seq<seq<nat>>, cur: seq<nat>, q: seq<nat>, head: nat, done: nat,
                           visited: seq<bool>, owner: seq<nat>, paths: seq<seq<nat>>, root: nat)
    requires IsSquare(g)
    requires |visited| == |g| && |owner| == |g|
  {
    && head <= |cur| && done <= head && q == cur[head..]
    && |cur| > 0 && cur[0] == root
    && (forall j :: 0 <= j < |cur| ==> root <= cur[j] < |g|)
    && (forall v :: 0 <= v < root && v < |g| ==> visited[v])
    && (forall c :: 0 <= c < |comps| && 0 < |comps[c]| ==> comps[c][0] < root)
    && (forall j, u :: 0 <= j < done && 0 <= u < |g| && g[cur[j]][u] != 0 ==> visited[u] && owner[u] == |comps|)
    && |paths| == |cur|
    && (forall j :: 0 <= j < |cur| ==> IsPath(g, paths[j]) && paths[j][0] == root && paths[j][|paths[j]| - 1] == cur[j])
  }

  /** The vertices not yet visited. */
  ghost function Unvisited(visited: seq<bool>): set<nat>
  {
    set v | 0 <= v < |visited| && !visited[v]
  }

  lemma UnvisitedMark(visited: seq<bool>, k: nat)
    requires k < |visited| && !visited[k]
    ensures |Unvisited(visited[k := true])| == |Unvisited(visited)| - 1
  {
    assert Unvisited(visited[k := true]) == Unvisited(visited) - {k};
  }

  /** A visited neighbour of a member of `cur` already belongs to `cur`: finished lists are closed. */
  lemma NeighbourOwned(g: seq<seq<nat>>, comps: seq<seq<nat>>, cur: seq<nat>,
                       visited: seq<bool>, owner: seq<nat>, pos: seq<nat>, jw: nat, k: nat)
    requires IsSquare(g) && Symmetric(g)
    requires Inv(g, comps, cur, visited, owner, pos)
    requires jw < |cur| && k < |g| && visited[k] && g[cur[jw]][k] != 0
    ensures owner[k] == |comps|
  {
    var w := cur[jw];
    assert g[k][w] != 0;
    assert Placed(comps, cur, owner[k], pos[k], k);
  }

  /** Marking the unvisited neighbour `k` of `cur[head - 1]` and appending it keeps the bookkeeping. */
  lemma PushStep(g: seq<seq<nat>>, comps: seq<seq<nat>>, cur: seq<nat>, q: seq<nat>, head: nat,
                 visited: seq<bool>, owner: seq<nat>, pos: seq<nat>, paths: seq<seq<nat>>, root: nat, k: nat)
    requires IsSquare(g)
    requires Inv(g, comps, cur, visited, owner, pos)
    requires 0 < head && Frontier(g, comps, cur, q, head, head - 1, visited, owner, paths, root)
    requires k < |g| && !visited[k] && g[cur[head - 1]][k] != 0
    ensures Inv(g, comps, cur + [k], visited[k := true], owner[k := |comps|], pos[k := |cur|])
    ensures Frontier(g, comps, cur + [k], q + [k], head, head - 1, visited[k := true], owner[k := |comps|],
                     paths + [paths[head - 1] + [k]], root)
  {
    PushTracked(|g|, comps, cur, visited, owner, pos, k);
    PushFrontier(g, comps, cur, q, head, visited, owner, paths, root, k);
  }

  /** Marking `k` and appending it to `cur` keeps every member recorded at its place. */
  lemma PushTracked(n: nat, comps: seq<seq<nat>>, cur: seq<nat>, visited: seq<bool>, owner: seq<nat>, pos: seq<nat>, k: nat)
    requires Tracked(n, comps, cur, visited, owner, pos)
    requires k < n && !visited[k]
    ensures Tracked(n, comps, cur + [k], visited[k := true], owner[k := |comps|], pos[k := |cur|])
  {
    var cur', visited', owner', pos' := cur + [k], visited[k := true], owner[k := |comps|], pos[k := |cur|];
    forall v | 0 <= v < n && visited'[v]
      ensures Placed(comps, cur', owner'[v], pos'[v], v)
    {
      if v != k {
        assert Placed(comps, cur, owner[v], pos[v], v);
      }
    }
  }

  /** Appending the neighbour `k` of `cur[head - 1]` extends the frontier, with a path to `k`. */
  lemma PushFrontier(g: seq<seq<nat>>, comps: seq<seq<nat>>, cur: seq<nat>, q: seq<nat>, head: nat,
                     visited: seq<bool>, owner: seq<nat>, paths: seq<seq<nat>>, root: nat, k: nat)
    requires IsSquare(g)
    requires |visited| == |g| && |owner| == |g|
    requires 0 < head && Frontier(g, comps, cur, q, head, head - 1, visited, owner, paths, root)
    requires k < |g| && !visited[k] && g[cur[head - 1]][k] != 0
    ensures Frontier(g, comps, cur + [k], q + [k], head, head - 1, visited[k := true], owner[k := |comps|],
                     paths + [paths[head - 1] + [k]], root)
  {
    var cur' := cur + [k];
    assert k >= root;
    var p := paths[head - 1] + [k];
    assert IsPath(g, p) by {
      forall t | 0 <= t < |p| - 1
        ensures g[p[t]][p[t + 1]] != 0
      {
        if t < |p| - 2 {
          assert p[t] == paths[head - 1][t] && p[t + 1] == paths[head - 1][t + 1];
        }
      }
    }
    assert cur'[head..] == q + [k];
  }

  /** `par` followed by `extra` members all discovered by `d`. */
  ghost function Discoverers(par: seq<nat>, extra: nat, d: nat): (r: seq<nat>)
    ensures |r| == |par| + extra
    ensures forall m :: 0 <= m < |par| ==> r[m] == par[m]
    ensures forall m :: |par| <= m < |r| ==> r[m] == d
  {
    par + seq(extra, _ => d)
  }

  /**
   * `cur` extends `cur0` by neighbours of `w` below `k`, in ascending order, none of
   * them visited in `visited0`.
   */
  ghost predicate Appended(g: seq<seq<nat>>, w: nat, cur0: seq<nat>, visited0: seq<bool>, cur: seq<nat>, k: nat)
    requires IsSquare(g) && w < |g| && |visited0| == |g|
  {
    && |cur0| <= |cur| && cur[..|cur0|] == cur0
    && (forall m :: |cur0| <= m < |cur| ==> cur[m] < k && cur[m] < |g| && g[w][cur[m]] != 0 && !visited0[cur[m]])
    && (forall m, m' :: |cur0| <= m < m' < |cur| ==> cur[m] < cur[m'])
  }

  lemma AppendStep(g: seq<seq<nat>>, w: nat, cur0: seq<nat>, visited0: seq<bool>, cur: seq<nat>, k: nat)
    requires IsSquare(g) && w < |g| && |visited0| == |g|
    requires Appended(g, w, cur0, visited0, cur, k)
    requires k < |g| && g[w][k] != 0 && !visited0[k]
    ensures Appended(g, w, cur0, visited0, cur + [k], k + 1)
  {
    assert (cur + [k])[..|cur0|] == cur[..|cur0|];
  }

  /** Every appended member is discovered by `cur0[head - 1]`, after every earlier member. */
  lemma ExtendParents(g: seq<seq<nat>>, cur0: seq<nat>, par0: seq<nat>, head: nat, visited0: seq<bool>,
                      cur: seq<nat>, par: seq<nat>)
    requires IsSquare(g)
    requires DiscoveredBy(g, cur0, par0)
    requires 0 < head <= |cur0|
    requires forall m :: 1 <= m < |cur0| ==> par0[m] < head - 1
    requires |visited0| == |g|
    requires Appended(g, cur0[head - 1], cur0, visited0, cur, |g|)
    requires par == Discoverers(par0, |cur| - |cur0|, head - 1)
    ensures forall m {:trigger par[m]} :: 1 <= m < |cur| ==> par[m] < m && g[cur[par[m]]][cur[m]] != 0 && par[m] < head
  {
    forall m | 1 <= m < |cur|
      ensures par[m] < m && g[cur[par[m]]][cur[m]] != 0 && par[m] < head
    {
      if m < |cur0| {
        assert par[m] == par0[m] && cur[m] == cur0[m] && cur[par0[m]] == cur0[par0[m]];
      } else {
        assert par[m] == head - 1 && cur[head - 1] == cur0[head - 1];
      }
    }
  }

  /** No appended member is adjacent to a member expanded before `cur0[head - 1]`. */
  lemma ExtendLeast(g: seq<seq<nat>>, cur0: seq<nat>, par0: seq<nat>, head: nat, visited0: seq<bool>,
                    cur: seq<nat>, par: seq<nat>)
    requires IsSquare(g)
    requires DiscoveredBy(g, cur0, par0)
    requires 0 < head <= |cur0|
    requires forall m :: 1 <= m < |cur0| ==> par0[m] < head - 1
    requires |visited0| == |g|
    requires Appended(g, cur0[head - 1], cur0, visited0, cur, |g|)
    requires par == Discoverers(par0, |cur| - |cur0|, head - 1)
    requires forall j, u :: 0 <= j < head - 1 && 0 <= u < |g| && cur0[j] < |g| && g[cur0[j]][u] != 0 ==> visited0[u]
    ensures forall m, j {:trigger Adjacent(g, cur[j], cur[m])} :: 1 <= m < |cur| && 0 <= j < par[m] ==> !Adjacent(g, cur[j], cur[m])
  {
    forall m, j | 1 <= m < |cur| && 0 <= j < par[m]
      ensures !Adjacent(g, cur[j], cur[m])
    {
      assert cur[j] == cur0[j];
      if m < |cur0| {
        assert par[m] == par0[m] && cur[m] == cur0[m];
        assert !Adjacent(g, cur0[j], cur0[m]);
      } else {
        assert par[m] == head - 1;
        assert !visited0[cur[m]];
      }
    }
  }

  /** Discoverers never decrease, and members sharing one are ascending. */
  lemma ExtendMonotone(g: seq<seq<nat>>, cur0: seq<nat>, par0: seq<nat>, head: nat, visited0: seq<bool>,
                       cur: seq<nat>, par: seq<nat>)
    requires IsSquare(g)
    requires DiscoveredBy(g, cur0, par0)
    requires 0 < head <= |cur0|
    requires forall m :: 1 <= m < |cur0| ==> par0[m] < head - 1
    requires |visited0| == |g|
    requires Appended(g, cur0[head - 1], cur0, visited0, cur, |g|)
    requires par == Discoverers(par0, |cur| - |cur0|, head - 1)
    ensures forall m, m' {:trigger par[m], par[m']} :: 1 <= m < m' < |cur| ==> par[m] <= par[m']
    ensures forall m, m' {:trigger par[m], par[m']} :: 1 <= m < m' < |cur| && par[m] == par[m'] ==> cur[m] < cur[m']
  {
    forall m, m' | 1 <= m < m' < |cur|
      ensures par[m] <= par[m'] && (par[m] == par[m'] ==> cur[m] < cur[m'])
    {
      if m' < |cur0| {
        assert par[m] == par0[m] && par[m'] == par0[m'] && cur[m] == cur0[m] && cur[m'] == cur0[m'];
      } else if m < |cur0| {
        assert par[m] == par0[m] && par[m'] == head - 1;
      } else {
        assert par[m] == head - 1 && par[m'] == head - 1;
      }
    }
  }

  /**
   * Appending the unvisited neighbours of `cur0[head - 1]`, in ascending order, all
   * discovered by that member, keeps the discovery order.
   */
  lemma ExtendOrdered(g: seq<seq<nat>>, cur0: seq<nat>, par0: seq<nat>, head: nat, visited0: seq<bool>,
                      cur: seq<nat>, par: seq<nat>)
    requires IsSquare(g)
    requires DiscoveredBy(g, cur0, par0)
    requires 0 < head <= |cur0|
    requires forall m :: 1 <= m < |cur0| ==> par0[m] < head - 1
    requires |visited0| == |g|
    requires Appended(g, cur0[head - 1], cur0, visited0, cur, |g|)
    requires par == Discoverers(par0, |cur| - |cur0|, head - 1)
    requires forall j, u :: 0 <= j < head - 1 && 0 <= u < |g| && cur0[j] < |g| && g[cur0[j]][u] != 0 ==> visited0[u]
    ensures DiscoveredBy(g, cur, par)
    ensures forall m :: 1 <= m < |cur| ==> par[m] < head
  {
    ExtendParents(g, cur0, par0, head, visited0, cur, par);
    ExtendLeast(g, cur0, par0, head, visited0, cur, par);
    ExtendMonotone(g, cur0, par0, head, visited0, cur, par);
  }

  /**
   * The state of the neighbour scan of `w == cur[head - 1]` before neighbour `k`: the
   * bookkeeping holds, the neighbours below `k` are visited into `cur`, and the scan
   * only appended unvisited neighbours to what it started from (`cur0`, `q0`, `visited0`).
   */
  ghost predicate ExpandInv(g: seq<seq<nat>>, comps: seq<seq<nat>>, cur0: seq<nat>, q0: seq<nat>, visited0: seq<bool>,
                            head: nat, root: nat, w: nat, k: nat, cur: seq<nat>, q: seq<nat>, visited: seq<bool>,
                            owner: seq<nat>, pos: seq<nat>, paths: seq<seq<nat>>)
    requires IsSquare(g)
  {
    && 0 < head <= |cur0| && w < |g| && |visited0| == |g|
    && (forall j, u :: 0 <= j < head - 1 && 0 <= u < |g| && cur0[j] < |g| && g[cur0[j]][u] != 0 ==> visited0[u])
    && Inv(g, comps, cur, visited, owner, pos)
    && Frontier(g, comps, cur, q, head, head - 1, visited, owner, paths, root)
    && w == cur[head - 1]
    && Appended(g, w, cur0, visited0, cur, k)
    && (forall u :: 0 <= u < k && u < |g| && g[w][u] != 0 ==> visited[u] && owner[u] == |comps|)
    && (forall v :: 0 <= v < |g| && visited0[v] ==> visited[v])
    && |Unvisited(visited)| + |q| == |Unvisited(visited0)| + |q0|
  }

  /** The scan appends the unvisited neighbour `k`. */
  lemma ExpandPush(g: seq<seq<nat>>, comps: seq<seq<nat>>, cur0: seq<nat>, q0: seq<nat>, visited0: seq<bool>,
                   head: nat, root: nat, w: nat, k: nat, cur: seq<nat>, q: seq<nat>, visited: seq<bool>,
                   owner: seq<nat>, pos: seq<nat>, paths: seq<seq<nat>>)
    requires IsSquare(g)
    requires ExpandInv(g, comps, cur0, q0, visited0, head, root, w, k, cur, q, visited, owner, pos, paths)
    requires k < |g| && g[w][k] != 0 && !visited[k]
    ensures ExpandInv(g, comps, cur0, q0, visited0, head, root, w, k + 1, cur + [k], q + [k], visited[k := true],
                      owner[k := |comps|], pos[k := |cur|], paths + [paths[head - 1] + [k]])
  {
    PushStep(g, comps, cur, q, head, visited, owner, pos, paths, root, k);
    AppendStep(g, w, cur0, visited0, cur, k);
    UnvisitedMark(visited, k);
    assert (cur + [k])[head - 1] == w;
  }

  /** The scan passes over `k`: not a neighbour, or already in `cur`. */
  lemma ExpandSkip(g: seq<seq<nat>>, comps: seq<seq<nat>>, cur0: seq<nat>, q0: seq<nat>, visited0: seq<bool>,
                   head: nat, root: nat, w: nat, k: nat, cur: seq<nat>, q: seq<nat>, visited: seq<bool>,
                   owner: seq<nat>, pos: seq<nat>, paths: seq<seq<nat>>)
    requires IsSquare(g) && Symmetric(g)
    requires ExpandInv(g, comps, cur0, q0, visited0, head, root, w, k, cur, q, visited, owner, pos, paths)
    requires k < |g| && (g[w][k] == 0 || visited[k])
    ensures ExpandInv(g, comps, cur0, q0, visited0, head, root, w, k + 1, cur, q, visited, owner, pos, paths)
  {
    if g[w][k] != 0 {
      NeighbourOwned(g, comps, cur, visited, owner, pos, head - 1, k);
    }
  }

  /** A finished neighbour scan leaves `cur[..head]` fully expanded. */
  lemma ExpandDone(g: seq<seq<nat>>, comps: seq<seq<nat>>, cur0: seq<nat>, q0: seq<nat>, visited0: seq<bool>,
                   head: nat, root: nat, w: nat, cur: seq<nat>, q: seq<nat>, visited: seq<bool>,
                   owner: seq<nat>, pos: seq<nat>, paths: seq<seq<nat>>)
    requires IsSquare(g)
    requires ExpandInv(g, comps, cur0, q0, visited0, head, root, w, |g|, cur, q, visited, owner, pos, paths)
    ensures Inv(g, comps, cur, visited, owner, pos)
    ensures Frontier(g, comps, cur, q, head, head, visited, owner, paths, root)
    ensures forall v :: 0 <= v < |g| && visited0[v] ==> visited[v]
    ensures |Unvisited(visited)| + |q| == |Unvisited(visited0)| + |q0|
    ensures Appended(g, w, cur0, visited0, cur, |g|)
  {
  }

  /** Starting a component at the unvisited `root`. */
  lemma StartStep(g: seq<seq<nat>>, comps: seq<seq<nat>>, visited: seq<bool>, owner: seq<nat>, pos: seq<nat>, root: nat)
    requires IsSquare(g)
    requires Inv(g, comps, [], visited, owner, pos)
    requires root < |g| && !visited[root]
    ensures Inv(g, comps, [root], visited[root := true], owner[root := |comps|], pos[root := 0])
  {
    var visited', owner', pos' := visited[root := true], owner[root := |comps|], pos[root := 0];
    forall v | 0 <= v < |g| && visited'[v]
      ensures Placed(comps, [root], owner'[v], pos'[v], v)
    {
      if v != root {
        assert Placed(comps, [], owner[v], pos[v], v);
      }
    }
  }

  /** Closing the component: the bookkeeping moves `cur` to the finished lists. */
  lemma FinishTracked(n: nat, comps: seq<seq<nat>>, cur: seq<nat>, visited: seq<bool>, owner: seq<nat>, pos: seq<nat>)
    requires Tracked(n, comps, cur, visited, owner, pos)
    ensures Tracked(n, comps + [cur], [], visited, owner, pos)
  {
    var comps' := comps + [cur];
    forall c, j | 0 <= c < |comps'| && 0 <= j < |comps'[c]|
      ensures comps'[c][j] < n && visited[comps'[c][j]] && owner[comps'[c][j]] == c && pos[comps'[c][j]] == j
    {
      if c < |comps| {
        assert comps'[c] == comps[c];
      }
    }
    forall v | 0 <= v < n && visited[v]
      ensures Placed(comps', [], owner[v], pos[v], v)
    {
      assert Placed(comps, cur, owner[v], pos[v], v);
    }
  }

  /** Closing the component: it starts at `root`, above every earlier first member. */
  lemma FinishShaped(comps: seq<seq<nat>>, cur: seq<nat>, root: nat)
    requires Shaped(comps)
    requires |cur| > 0 && cur[0] == root
    requires forall j :: 0 <= j < |cur| ==> root <= cur[j]
    requires forall c :: 0 <= c < |comps| ==> comps[c][0] < root
    ensures Shaped(comps + [cur])
  {
    var comps' := comps + [cur];
    assert forall c :: 0 <= c < |comps| ==> comps'[c] == comps[c];
  }

  /** Closing the component: every member has been expanded, so it is closed. */
  lemma FinishClosed(g: seq<seq<nat>>, comps: seq<seq<nat>>, cur: seq<nat>, visited: seq<bool>, owner: seq<nat>)
    requires IsSquare(g)
    requires ClosedSoFar(g, comps, visited, owner)
    requires |visited| == |g| && |owner| == |g|
    requires forall j, u :: 0 <= j < |cur| && 0 <= u < |g| && cur[j] < |g| && g[cur[j]][u] != 0 ==>
      visited[u] && owner[u] == |comps|
    ensures ClosedSoFar(g, comps + [cur], visited, owner)
  {
    var comps' := comps + [cur];
    assert forall c :: 0 <= c < |comps| ==> comps'[c] == comps[c];
  }

  /** Closing the component: the recorded paths connect its members to `root`. */
  lemma FinishConnected(g: seq<seq<nat>>, comps: seq<seq<nat>>, cur: seq<nat>, paths: seq<seq<nat>>, root: nat)
    requires IsSquare(g)
    requires ConnectedSoFar(g, comps)
    requires |cur| > 0 && cur[0] == root && |paths| == |cur|
    requires forall j :: 0 <= j < |cur| ==> IsPath(g, paths[j]) && paths[j][0] == root && paths[j][|paths[j]| - 1] == cur[j]
    ensures ConnectedSoFar(g, comps + [cur])
  {
    var comps' := comps + [cur];
    forall c, j | 0 <= c < |comps'| && 0 < |comps'[c]| && 0 <= j < |comps'[c]|
      ensures Connected(g, comps'[c][0], comps'[c][j])
    {
      if c < |comps| {
        assert comps'[c] == comps[c];
      } else {
        assert IsPath(g, paths[j]);
      }
    }
  }

  /** Closing the component: it is in discovery order, as the earlier lists are. */
  lemma FinishOrdered(g: seq<seq<nat>>, comps: seq<seq<nat>>, cur: seq<nat>)
    requires IsSquare(g)
    requires forall c :: 0 <= c < |comps| ==> BfsOrder(g, comps[c])
    requires BfsOrder(g, cur)
    ensures forall c :: 0 <= c < |comps + [cur]| ==> BfsOrder(g, (comps + [cur])[c])
  {
    var comps' := comps + [cur];
    assert forall c :: 0 <= c < |comps| ==> comps'[c] == comps[c];
    assert comps'[|comps|] == cur;
  }

  /** A component whose every member is expanded joins the finished lists. */
  lemma FinishStep(g: seq<seq<nat>>, comps: seq<seq<nat>>, cur: seq<nat>, q: seq<nat>,
                   visited: seq<bool>, owner: seq<nat>, pos: seq<nat>, paths: seq<seq<nat>>, root: nat)
    requires IsSquare(g)
    requires Inv(g, comps, cur, visited, owner, pos)
    requires Frontier(g, comps, cur, q, |cur|, |cur|, visited, owner, paths, root)
    ensures Inv(g, comps + [cur], [], visited, owner, pos)
  {
    FinishTracked(|g|, comps, cur, visited, owner, pos);
    FinishShaped(comps, cur, root);
    FinishClosed(g, comps, cur, visited, owner);
    FinishConnected(g, comps, cur, paths, root);
  }

  /**
   * The state of the breadth-first exploration from `root`: the bookkeeping holds,
   * `cur[..head]` is expanded, nothing visited before is forgotten, and `cur` is in
   * discovery order with every discoverer already expanded.
   */
  ghost predicate ExploreInv(g: seq<seq<nat>>, comps: seq<seq<nat>>, visited0: seq<bool>, root: nat,
                             cur: seq<nat>, q: seq<nat>, head: nat, visited: seq<bool>, owner: seq<nat>,
                             pos: seq<nat>, paths: seq<seq<nat>>, par: seq<nat>)
    requires IsSquare(g)
  {
    && Inv(g, comps, cur, visited, owner, pos)
    && Frontier(g, comps, cur, q, head, head, visited, owner, paths, root)
    && (forall v :: 0 <= v < |g| && v < |visited0| && visited0[v] ==> visited[v])
    && DiscoveredBy(g, cur, par)
    && (forall m :: 1 <= m < |cur| ==> par[m] < head)
  }

  /** Taking the next member off the queue: it is `cur[head]`, about to be expanded. */
  lemma PopStep(g: seq<seq<nat>>, comps: seq<seq<nat>>, visited0: seq<bool>, root: nat,
                cur: seq<nat>, q: seq<nat>, head: nat, visited: seq<bool>, owner: seq<nat>,
                pos: seq<nat>, paths: seq<seq<nat>>, par: seq<nat>)
    requires IsSquare(g)
    requires ExploreInv(g, comps, visited0, root, cur, q, head, visited, owner, pos, paths, par)
    requires |q| > 0
    ensures Frontier(g, comps, cur, q[1..], head + 1, head, visited, owner, paths, root)
    ensures q[0] == cur[head]
  {
  }

  /** After the neighbour scan of `cur[head - 1]` the exploration state is restored. */
  lemma ExploreStep(g: seq<seq<nat>>, comps: seq<seq<nat>>, visited0: seq<bool>, root: nat,
                    cur0: seq<nat>, q0: seq<nat>, head: nat, visitedB: seq<bool>, par0: seq<nat>, w: nat,
                    cur: seq<nat>, q: seq<nat>, visited: seq<bool>, owner: seq<nat>, pos: seq<nat>, paths: seq<seq<nat>>)
    requires IsSquare(g)
    requires |visitedB| == |g| && forall v :: 0 <= v < |g| && v < |visited0| && visited0[v] ==> visitedB[v]
    requires 0 < head && DiscoveredBy(g, cur0, par0) && forall m :: 1 <= m < |cur0| ==> par0[m] < head - 1
    requires ExpandInv(g, comps, cur0, q0, visitedB, head, root, w, |g|, cur, q, visited, owner, pos, paths)
    ensures ExploreInv(g, comps, visited0, root, cur, q, head, visited, owner, pos, paths,
                       Discoverers(par0, |cur| - |cur0|, head - 1))
    ensures |Unvisited(visited)| + |q| == |Unvisited(visitedB)| + |q0|
  {
    ExpandDone(g, comps, cur0, q0, visitedB, head, root, w, cur, q, visited, owner, pos, paths);
    ExtendOrdered(g, cur0, par0, head, visitedB, cur, Discoverers(par0, |cur| - |cur0|, head - 1));
  }

  /** Taking `cur[head]` off the queue starts its neighbour scan. */
  lemma StartExpand(g: seq<seq<nat>>, comps: seq<seq<nat>>, visited0: seq<bool>, root: nat,
                    cur: seq<nat>, q: seq<nat>, head: nat, visited: seq<bool>, owner: seq<nat>,
                    pos: seq<nat>, paths: seq<seq<nat>>, par: seq<nat>)
    requires IsSquare(g)
    requires ExploreInv(g, comps, visited0, root, cur, q, head, visited, owner, pos, paths, par)
    requires |q| > 0
    ensures ExpandInv(g, comps, cur, q[1..], visited, head + 1, root, q[0], 0, cur, q[1..], visited, owner, pos, paths)
  {
    PopStep(g, comps, visited0, root, cur, q, head, visited, owner, pos, paths, par);
  }

  /**
   * One round of the queue loop: take `w` off the front of the queue, then scan its
   * neighbours in index order, appending each unvisited one to the component and to
   * the queue.
   */
  method Expand(g: seq<seq<nat>>, ghost comps: seq<seq<nat>>, ghost visited0: seq<bool>, ghost root: nat,
                cur0: seq<nat>, q0: seq<nat>, ghost head0: nat, visitedA: seq<bool>, ghost owner0: seq<nat>,
                ghost pos0: seq<nat>, ghost paths0: seq<seq<nat>>, ghost par0: seq<nat>)
    returns (cur: seq<nat>, q: seq<nat>, ghost head: nat, visited: seq<bool>, ghost owner: seq<nat>,
             ghost pos: seq<nat>, ghost paths: seq<seq<nat>>, ghost par: seq<nat>)
    requires IsSquare(g) && Symmetric(g)
    requires ExploreInv(g, comps, visited0, root, cur0, q0, head0, visitedA, owner0, pos0, paths0, par0)
    requires |q0| > 0
    ensures q0[0] < |g| && |visitedA| == |g|
    ensures Appended(g, q0[0], cur0, visitedA, cur, |g|)
    ensures forall u :: 0 <= u < |g| && g[q0[0]][u] != 0 && !visitedA[u] ==> u in cur[|cur0|..]
    ensures ExploreInv(g, comps, visited0, root, cur, q, head, visited, owner, pos, paths, par)
    ensures |Unvisited(visited)| + |q| < |Unvisited(visitedA)| + |q0|
  {
    StartExpand(g, comps, visited0, root, cur0, q0, head0, visitedA, owner0, pos0, paths0, par0);
    var w := q0[0];
    head := head0 + 1;
    cur, q, visited, owner, pos, paths := cur0, q0[1..], visitedA, owner0, pos0, paths0;
    for k := 0 to |g|
      invariant ExpandInv(g, comps, cur0, q0[1..], visitedA, head, root, w, k, cur, q, visited, owner, pos, paths)
    {
      if g[w][k] != 0 && !visited[k] {
        ExpandPush(g, comps, cur0, q0[1..], visitedA, head, root, w, k, cur, q, visited, owner, pos, paths);
        visited := visited[k := true];
        owner := owner[k := |comps|];
        pos := pos[k := |cur|];
        paths := paths + [paths[head - 1] + [k]];
        cur := cur + [k];
        q := q + [k];
      } else {
        ExpandSkip(g, comps, cur0, q0[1..], visitedA, head, root, w, k, cur, q, visited, owner, pos, paths);
      }
    }
    ExpandAppendsNew(g, comps, cur0, q0[1..], visitedA, owner0, pos0, head, root, w, cur, q, visited, owner, pos, paths);
    ExploreStep(g, comps, visited0, root, cur0, q0[1..], head, visitedA, par0, w, cur, q, visited, owner, pos, paths);
    par := Discoverers(par0, |cur| - |cur0|, head - 1);
  }

  /** At the end of the neighbour scan, every neighbour of `w` unvisited before it has been appended. */
  lemma ExpandAppendsNew(g: seq<seq<nat>>, comps: seq<seq<nat>>, cur0: seq<nat>, q0: seq<nat>, visited0: seq<bool>,
                         owner0: seq<nat>, pos0: seq<nat>, head: nat, root: nat, w: nat, cur: seq<nat>, q: seq<nat>,
                         visited: seq<bool>, owner: seq<nat>, pos: seq<nat>, paths: seq<seq<nat>>)
    requires IsSquare(g)
    requires Tracked(|g|, comps, cur0, visited0, owner0, pos0)
    requires ExpandInv(g, comps, cur0, q0, visited0, head, root, w, |g|, cur, q, visited, owner, pos, paths)
    ensures Appended(g, w, cur0, visited0, cur, |g|)
    ensures forall u :: 0 <= u < |g| && g[w][u] != 0 && !visited0[u] ==> u in cur[|cur0|..]
  {
    forall u | 0 <= u < |g| && g[w][u] != 0 && !visited0[u]
      ensures u in cur[|cur0|..]
    {
      assert visited[u] && owner[u] == |comps|;
      assert Placed(comps, cur, owner[u], pos[u], u);
      assert cur[|cur0|..][pos[u] - |cur0|] == u;
    }
  }

  /** The exploration from the unvisited `root` starts with `cur == q == [root]`. */
  lemma StartExplore(g: seq<seq<nat>>, comps: seq<seq<nat>>, visited0: seq<bool>, owner0: seq<nat>,
                     pos0: seq<nat>, root: nat)
    requires IsSquare(g)
    requires Inv(g, comps, [], visited0, owner0, pos0)
    requires root < |g| && !visited0[root]
    requires forall v :: 0 <= v < root ==> visited0[v]
    requires forall c :: 0 <= c < |comps| ==> comps[c][0] < root
    ensures ExploreInv(g, comps, visited0, root, [root], [root], 0, visited0[root := true],
                       owner0[root := |comps|], pos0[root := 0], [[root]], [0])
  {
    StartStep(g, comps, visited0, owner0, pos0, root);
    assert IsPath(g, [root]);
  }

  /** An exploration with an empty queue has found the whole component. */
  lemma EndExplore(g: seq<seq<nat>>, comps: seq<seq<nat>>, visited0: seq<bool>, root: nat,
                   cur: seq<nat>, q: seq<nat>, head: nat, visited: seq<bool>, owner: seq<nat>,
                   pos: seq<nat>, paths: seq<seq<nat>>, par: seq<nat>)
    requires IsSquare(g)
    requires ExploreInv(g, comps, visited0, root, cur, q, head, visited, owner, pos, paths, par)
    requires |q| == 0
    ensures Inv(g, comps + [cur], [], visited, owner, pos)
    ensures |cur| > 0 && cur[0] == root && visited[root]
    ensures BfsOrder(g, cur)
    ensures forall v :: 0 <= v < |g| && v < |visited0| && visited0[v] ==> visited[v]
  {
    FinishStep(g, comps, cur, q, visited, owner, pos, paths, root);
    assert DiscoveredBy(g, cur, par);
  }

  /** Explore the component of the unvisited `root` breadth-first. */
  method Explore(g: seq<seq<nat>>, ghost comps: seq<seq<nat>>, visited0: seq<bool>, ghost owner0: seq<nat>,
                 ghost pos0: seq<nat>, root: nat)
    returns (cur: seq<nat>, visited: seq<bool>, ghost owner: seq<nat>, ghost pos: seq<nat>)
    requires IsSquare(g) && Symmetric(g)
    requires Inv(g, comps, [], visited0, owner0, pos0)
    requires root < |g| && !visited0[root]
    requires forall v :: 0 <= v < root ==> visited0[v]
    requires forall c :: 0 <= c < |comps| ==> comps[c][0] < root
    ensures Inv(g, comps + [cur], [], visited, owner, pos)
    ensures |cur| > 0 && cur[0] == root && visited[root]
    ensures BfsOrder(g, cur)
    ensures forall v :: 0 <= v < |g| && visited0[v] ==> visited[v]
  {
    StartExplore(g, comps, visited0, owner0, pos0, root);
    visited, owner, pos := visited0[root := true], owner0[root := |comps|], pos0[root := 0];
    cur := [root];
    var q := [root];
    ghost var head := 0;
    ghost var paths := [[root]];
    ghost var par := [0];
    while |q| > 0
      invariant ExploreInv(g, comps, visited0, root, cur, q, head, visited, owner, pos, paths, par)
      decreases |Unvisited(visited)| + |q|
    {
      cur, q, head, visited, owner, pos, paths, par := Expand(g, comps, visited0, root, cur, q, head, visited, owner, pos, paths, par);
    }
    EndExplore(g, comps, visited0, root, cur, q, head, visited, owner, pos, paths, par);
  }

  /** Once every vertex is visited, the finished lists partition the vertices. */
  lemma AllVisitedPartition(n: nat, comps: seq<seq<nat>>, visited: seq<bool>, owner: seq<nat>, pos: seq<nat>)
    requires Tracked(n, comps, [], visited, owner, pos)
    requires forall c :: 0 <= c < |comps| ==> |comps[c]| > 0
    requires forall v :: 0 <= v < n ==> visited[v]
    ensures IsPartition(comps, n)
  {
    forall v | 0 <= v < n
      ensures Covered(comps, v)
    {
      assert Placed(comps, [], owner[v], pos[v], v);
      assert comps[owner[v]][pos[v]] == v;
    }
  }

  /** Once every vertex is visited, each finished list is closed under edges. */
  lemma AllVisitedClosed(g: seq<seq<nat>>, comps: seq<seq<nat>>, visited: seq<bool>, owner: seq<nat>, pos: seq<nat>)
    requires IsSquare(g)
    requires Tracked(|g|, comps, [], visited, owner, pos)
    requires ClosedSoFar(g, comps, visited, owner)
    ensures forall c :: 0 <= c < |comps| ==> ClosedList(g, comps[c])
  {
    forall c | 0 <= c < |comps|
      ensures ClosedList(g, comps[c])
    {
      forall j, u | 0 <= j < |comps[c]| && 0 <= u < |g| && comps[c][j] < |g| && g[comps[c][j]][u] != 0
        ensures u in comps[c]
      {
        assert Placed(comps, [], owner[u], pos[u], u);
        assert comps[c][pos[u]] == u;
      }
    }
  }

  /** Once every vertex is visited, the finished lists are the components. */
  lemma AllVisited(g: seq<seq<nat>>, comps: seq<seq<nat>>, visited: seq<bool>, owner: seq<nat>, pos: seq<nat>)
    requires IsSquare(g)
    requires Inv(g, comps, [], visited, owner, pos)
    requires forall v :: 0 <= v < |g| ==> visited[v]
    requires forall c :: 0 <= c < |comps| ==> BfsOrder(g, comps[c])
    ensures ComponentLists(g, comps)
  {
    AllVisitedPartition(|g|, comps, visited, owner, pos);
    AllVisitedClosed(g, comps, visited, owner, pos);
  }

  /** The breadth-first scan over vertices 0 .. n-1 of the undirected graph `g`. */
  method Scan(g: seq<seq<nat>>) returns (comps: seq<seq<nat>>)
    requires IsSquare(g) && Symmetric(g)
    ensures ComponentLists(g, comps)
  {
    var visited := seq(|g|, _ => false);
    ghost var owner: seq<nat> := seq(|g|, _ => 0);
    ghost var pos: seq<nat> := seq(|g|, _ => 0);
    comps := [];
    for i := 0 to |g|
      invariant Inv(g, comps, [], visited, owner, pos)
      invariant forall v :: 0 <= v < i ==> visited[v]
      invariant forall c :: 0 <= c < |comps| ==> comps[c][0] < i
      invariant forall c :: 0 <= c < |comps| ==> BfsOrder(g, comps[c])
    {
      if !visited[i] {
        var comp;
        comp, visited, owner, pos := Explore(g, comps, visited, owner, pos, i);
        FinishOrdered(g, comps, comp);
        comps := comps + [comp];
      }
    }
    AllVisited(g, comps, visited, owner, pos);
  }

  /** The lists of a dictionary keyed 0 .. |m|-1, in key order. */
  ghost function DictLists(m: map<nat, seq<nat>>): (xs: seq<seq<nat>>)
    requires forall c: nat :: c < |m| ==> c in m
    ensures |xs| == |m|
    ensures forall c :: 0 <= c < |m| ==> xs[c] == m[c]
  {
    seq(|m|, c requires 0 <= c < |m| => m[c])
  }

  /**
   * `strongly_connected(adjmat)` / `concom2(adjmat)`: symmetrise the adjacency, then
   * number the components 0, 1, 2, ... in the order their smallest vertex is met,
   * each listed in breadth-first discovery order.
   */
  method ConnectedComponents(adj: seq<seq<nat>>) returns (comps: map<nat, seq<nat>>)
    requires IsSquare(adj)
    ensures forall c: nat :: c in comps <==> c < |comps|
    ensures ComponentLists(MakeUndir(adj), DictLists(comps))
  {
    var g := MakeUndir(adj);
    MakeUndirSymmetric(adj);
    var lists := Scan(g);
    comps := ToDict(lists);
  }

  /** `comps[compNum] = ...` for compNum = 0, 1, ...: the lists keyed by their position. */
  method ToDict(lists: seq<seq<nat>>) returns (comps: map<nat, seq<nat>>)
    ensures forall c: nat :: c in comps <==> c < |comps|
    ensures |comps| == |lists|
    ensures DictLists(comps) == lists
  {
    comps := map[];
    for c := 0 to |lists|
      invariant |comps| == c
      invariant forall d: nat :: d in comps <==> d < c
      invariant forall d :: 0 <= d < c ==> comps[d] == lists[d]
    {
      comps := comps[c := lists[c]];
    }
  }

  /** Removing edges can only break paths, never create them. */
  lemma {:induction false} ConnectedInSupergraph(g1: seq<seq<nat>>, g2: seq<seq<nat>>, u: nat, v: nat)
    requires IsSquare(g1) && IsSquare(g2) && |g1| == |g2|
    requires forall i, j :: 0 <= i < |g1| && 0 <= j < |g1| && g1[i][j] != 0 ==> g2[i][j] != 0
    requires Connected(g1, u, v)
    ensures Connected(g2, u, v)
  {
    var p :| IsPath(g1, p) && p[0] == u && p[|p| - 1] == v;
    assert IsPath(g2, p);
  }

  /**
   * Components of a subgraph refine those of the graph: two vertices that share a
   * list for `g1` share one for `g2` whenever every edge of `g1` is an edge of `g2`.
   */
  lemma SubgraphRefinesComponents(g1: seq<seq<nat>>, g2: seq<seq<nat>>, comps1: seq<seq<nat>>, comps2: seq<seq<nat>>,
                                  c: nat, u: nat, v: nat)
    requires IsSquare(g1) && IsSquare(g2) && |g1| == |g2| && Symmetric(g1) && Symmetric(g2)
    requires forall i, j :: 0 <= i < |g1| && 0 <= j < |g1| && g1[i][j] != 0 ==> g2[i][j] != 0
    requires ComponentLists(g1, comps1) && ComponentLists(g2, comps2)
    requires c < |comps1| && u in comps1[c] && v in comps1[c]
    ensures exists d :: 0 <= d < |comps2| && u in comps2[d] && v in comps2[d]
  {
    var ju :| 0 <= ju < |comps1[c]| && comps1[c][ju] == u;
    var jv :| 0 <= jv < |comps1[c]| && comps1[c][jv] == v;
    SameComponentIffConnected(g1, comps1, c, u, v);
    ConnectedInSupergraph(g1, g2, u, v);
    assert Covered(comps2, u);
    var d :| 0 <= d < |comps2| && u in comps2[d];
    SameComponentIffConnected(g2, comps2, d, u, v);
  }

  /** `p` walks along edges of the directed `adj`, each taken in either direction. */
  ghost predicate IsWeakPath(adj: seq<seq<nat>>, p: seq<nat>)
    requires IsSquare(adj)
  {
    && |p| > 0
    && (forall t :: 0 <= t < |p| ==> p[t] < |adj|)
    && (forall t :: 0 <= t < |p| - 1 ==> adj[p[t]][p[t + 1]] != 0 || adj[p[t + 1]][p[t]] != 0)
  }

  /** `u` and `v` are weakly connected in the directed `adj`. */
  ghost predicate WeaklyConnected(adj: seq<seq<nat>>, u: nat, v: nat)
    requires IsSquare(adj)
  {
    exists p :: IsWeakPath(adj, p) && p[0] == u && p[|p| - 1] == v
  }

  /** The paths of the symmetrised graph are exactly the weak paths of the digraph. */
  lemma WeakPathIsPath(adj: seq<seq<nat>>, p: seq<nat>)
    requires IsSquare(adj)
    ensures IsPath(MakeUndir(adj), p) <==> IsWeakPath(adj, p)
  {
  }

  /** Connectivity after `make_undir` is weak connectivity before it. */
  lemma ConnectedIffWeaklyConnected(adj: seq<seq<nat>>, u: nat, v: nat)
    requires IsSquare(adj)
    ensures Connected(MakeUndir(adj), u, v) <==> WeaklyConnected(adj, u, v)
  {
    if Connected(MakeUndir(adj), u, v) {
      var p :| IsPath(MakeUndir(adj), p) && p[0] == u && p[|p| - 1] == v;
      WeakPathIsPath(adj, p);
    }
    if WeaklyConnected(adj, u, v) {
      var p :| IsWeakPath(adj, p) && p[0] == u && p[|p| - 1] == v;
      WeakPathIsPath(adj, p);
    }
  }

  /**
   * The components of a digraph are its weakly connected components: two vertices
   * share a list exactly when a path joins them, ignoring edge directions.
   */
  lemma SameComponentIffWeaklyConnected(adj: seq<seq<nat>>, comps: seq<seq<nat>>, c: nat, u: nat, v: nat)
    requires IsSquare(adj)
    requires ComponentLists(MakeUndir(adj), comps)
    requires c < |comps| && u in comps[c]
    requires v < |adj|
    ensures v in comps[c] <==> WeaklyConnected(adj, u, v)
  {
    MakeUndirSymmetric(adj);
    SameComponentIffConnected(MakeUndir(adj), comps, c, u, v);
    ConnectedIffWeaklyConnected(adj, u, v);
  }

  /** Symmetrising keeps every edge of a subgraph inside the symmetrised supergraph. */
  lemma MakeUndirMonotone(adj1: seq<seq<nat>>, adj2: seq<seq<nat>>)
    requires IsSquare(adj1) && IsSquare(adj2) && |adj1| == |adj2|
    requires forall i, j :: 0 <= i < |adj1| && 0 <= j < |adj1| && adj1[i][j] != 0 ==> adj2[i][j] != 0
    ensures forall i, j :: 0 <= i < |adj1| && 0 <= j < |adj1| && MakeUndir(adj1)[i][j] != 0 ==> MakeUndir(adj2)[i][j] != 0
  {
  }

  /** A one-vertex graph has the single component [0]. */
  lemma SingleVertexComponents(g: seq<seq<nat>>, comps: seq<seq<nat>>)
    requires IsSquare(g) && |g| == 1
    requires ComponentLists(g, comps)
    ensures comps == [[0]]
  {
    assert Covered(comps, 0);
    var c0 :| 0 <= c0 < |comps| && 0 in comps[c0];
    var j0 :| 0 <= j0 < |comps[c0]| && comps[c0][j0] == 0;
    assert comps[0][0] == comps[c0][j0];
    assert comps[|comps| - 1][0] == comps[c0][j0];
    assert comps[0][|comps[0]| - 1] == comps[0][0];
    assert comps[0] == [0];
  }

  /** When every pair of vertices is joined by an edge, everything lands in one list. */
  lemma CompleteGraphOneComponent(g: seq<seq<nat>>, comps: seq<seq<nat>>)
    requires IsSquare(g) && |g| > 0
    requires forall i, j :: 0 <= i < |g| && 0 <= j < |g| ==> g[i][j] != 0
    requires ComponentLists(g, comps)
    ensures |comps| == 1
    ensures forall v :: 0 <= v < |g| ==> v in comps[0]
  {
    assert Covered(comps, 0);
    assert ClosedList(g, comps[0]);
    forall v | 0 <= v < |g|
      ensures v in comps[0]
    {
      assert g[comps[0][0]][v] != 0;
    }
    var last := comps[|comps| - 1][0];
    assert last < |g|;
    assert last in comps[0];
    var k :| 0 <= k < |comps[0]| && comps[0][k] == last;
  }
}
