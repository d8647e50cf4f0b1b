// Valve search (year 2022, day 16): an all-pairs breadth-first distance
// table over the tunnel graph, then two branch-and-bound depth-first
// searches for the most pressure released, alone in 30 minutes or with an
// elephant in 26 minutes.

module Valves {
  import opened Common

  /** A parsed room: its name, the flow rate of its valve and the rooms its tunnels lead to. */
  datatype Room = Room(name: string, flowRate: nat, tunnels: seq<string>)

  // ------------------------------------------------------------ the graph

  /** The index a name maps to in a map collected from (name, index) pairs: the last room with that name. */
  function IndexOf(rooms: seq<Room>, name: string): (r: Option<nat>)
    ensures r.Some? ==> r.value < |rooms| && rooms[r.value].name == name
    ensures r.Some? ==> forall j :: r.value < j < |rooms| ==> rooms[j].name != name
    ensures r.None? ==> forall j :: 0 <= j < |rooms| ==> rooms[j].name != name
  {
    if rooms == [] then None
    else if rooms[|rooms| - 1].name == name then Some(|rooms| - 1)
    else IndexOf(rooms[..|rooms| - 1], name)
  }

  /** Indices of the named rooms; `None` when a name has no room (the map lookup panics). */
  function ResolveAll(rooms: seq<Room>, names: seq<string>): (r: Option<seq<nat>>)
    ensures r.Some? <==> forall k :: 0 <= k < |names| ==> IndexOf(rooms, names[k]).Some?
    ensures r.Some? ==> |r.value| == |names|
    ensures r.Some? ==> forall k :: 0 <= k < |names| ==> r.value[k] == IndexOf(rooms, names[k]).value
  {
    if names == [] then Some([])
    else
      match IndexOf(rooms, names[0])
      case None => None
      case Some(i) =>
        match ResolveAll(rooms, names[1..])
        case None => None
        case Some(rest) => Some([i] + rest)
  }

  /** The tunnel graph as adjacency lists of room indices. */
  function Adjacency(rooms: seq<Room>): (r: Option<seq<seq<nat>>>)
    ensures r.Some? ==> |r.value| == |rooms| && Graph(r.value)
    ensures r.Some? <==> forall i :: 0 <= i < |rooms| ==> ResolveAll(rooms, rooms[i].tunnels).Some?
  {
    if forall i | 0 <= i < |rooms| :: ResolveAll(rooms, rooms[i].tunnels).Some? then
      Some(seq(|rooms|, i requires 0 <= i < |rooms| => ResolveAll(rooms, rooms[i].tunnels).value))
    else
      None
  }

  predicate Graph(adj: seq<seq<nat>>)
  {
    forall i, k :: 0 <= i < |adj| && 0 <= k < |adj[i]| ==> adj[i][k] < |adj|
  }

  predicate Undirected(adj: seq<seq<nat>>)
    requires Graph(adj)
  {
    forall i, k :: 0 <= i < |adj| && 0 <= k < |adj[i]| ==> i in adj[adj[i][k]]
  }

  /** `w` is a walk from `i` to `j` through tunnels. */
  ghost predicate IsPath(adj: seq<seq<nat>>, w: seq<nat>, i: nat, j: nat)
  {
    |w| >= 1 && w[0] == i && w[|w| - 1] == j &&
    (forall k :: 0 <= k < |w| ==> w[k] < |adj|) &&
    (forall k, l :: 0 <= k < |w| && l == k + 1 < |w| ==> w[l] in adj[w[k]])
  }

  ghost predicate Reachable(adj: seq<seq<nat>>, i: nat, j: nat)
  {
    exists w :: IsPath(adj, w, i, j)
  }

  /** `k` is the minimum number of tunnels between `i` and `j`. */
  ghost predicate IsDistance(adj: seq<seq<nat>>, i: nat, j: nat, k: nat)
  {
    (exists w :: IsPath(adj, w, i, j) && |w| == k + 1) &&
    (forall w :: IsPath(adj, w, i, j) ==> |w| >= k + 1)
  }

  function Reverse(w: seq<nat>): (r: seq<nat>)
    ensures |r| == |w| && forall k :: 0 <= k < |w| ==> r[k] == w[|w| - 1 - k]
  {
    if w == [] then [] else Reverse(w[1..]) + [w[0]]
  }

  lemma ReversePath(adj: seq<seq<nat>>, w: seq<nat>, i: nat, j: nat)
    requires Graph(adj) && Undirected(adj) && IsPath(adj, w, i, j)
    ensures IsPath(adj, Reverse(w), j, i)
  {
    var r := Reverse(w);
    forall k | 0 <= k < |r| - 1 ensures r[k + 1] in adj[r[k]] {
      var a := |w| - 2 - k;
      assert r[k] == w[a + 1] && r[k + 1] == w[a];
      var m :| 0 <= m < |adj[w[a]]| && adj[w[a]][m] == w[a + 1];
    }
  }

  /** On an undirected graph the hop count does not depend on the direction of travel. */
  lemma DistanceSymmetric(adj: seq<seq<nat>>, i: nat, j: nat, k: nat)
    requires Graph(adj) && Undirected(adj) && IsDistance(adj, i, j, k)
    ensures IsDistance(adj, j, i, k)
  {
    var w :| IsPath(adj, w, i, j) && |w| == k + 1;
    ReversePath(adj, w, i, j);
    forall v | IsPath(adj, v, j, i) ensures |v| >= k + 1 {
      ReversePath(adj, v, j, i);
    }
  }

  // ----------------------------------------------------- distance table

  /** The BFS frontier after dequeuing a room at `d` tunnels: each tunnel enqueued at `d + 1`. */
  function Enqueue(adj: seq<seq<nat>>, c: nat, d: nat): (q: seq<(nat, nat)>)
    requires c < |adj|
    ensures |q| == |adj[c]| && forall k :: 0 <= k < |q| ==> q[k] == (adj[c][k], d + 1)
  {
    seq(|adj[c]|, k requires 0 <= k < |adj[c]| => (adj[c][k], d + 1))
  }

  lemma {:induction false} ClosedReach(adj: seq<seq<nat>>, rec: map<nat, nat>, start: nat, w: seq<nat>, c: nat)
    requires Graph(adj) && start in rec && rec[start] == 0 && IsPath(adj, w, start, c)
    requires forall v :: v in rec ==> v < |adj|
    requires forall v, m :: v in rec && 0 <= m < |adj[v]| ==> adj[v][m] in rec && rec[adj[v][m]] <= rec[v] + 1
    ensures c in rec && rec[c] <= |w| - 1
    decreases |w|
  {
    if |w| > 1 {
      var p := w[..|w| - 1];
      ClosedReach(adj, rec, start, p, w[|w| - 2]);
      var m :| 0 <= m < |adj[w[|w| - 2]]| && adj[w[|w| - 2]][m] == c;
    }
  }

  /** The bookkeeping of the breadth-first search: recorded rooms, their witness walks and the queue's shape. */
  ghost predicate Shape(adj: seq<seq<nat>>, start: nat, visited: set<nat>, rec: map<nat, nat>,
                        paths: map<nat, seq<nat>>, toVisit: seq<(nat, nat)>, qpaths: seq<seq<nat>>)
  {
    Graph(adj) && start < |adj| &&
    visited == rec.Keys == paths.Keys && (forall c :: c in visited ==> c < |adj|) &&
    |qpaths| == |toVisit| && (forall k :: 0 <= k < |toVisit| ==> toVisit[k].0 < |adj|) &&
    (start in visited || toVisit == [(start, 0)]) &&
    (start in visited ==> rec[start] == 0)
  }

  /** Every recorded or queued hop count is the length of a walk from `start`. */
  ghost predicate Witnessed(adj: seq<seq<nat>>, start: nat, visited: set<nat>, rec: map<nat, nat>,
                            paths: map<nat, seq<nat>>, toVisit: seq<(nat, nat)>, qpaths: seq<seq<nat>>)
    requires visited == rec.Keys == paths.Keys && |qpaths| == |toVisit|
  {
    (forall c :: c in visited ==> IsPath(adj, paths[c], start, c) && |paths[c]| == rec[c] + 1) &&
    (forall k :: 0 <= k < |toVisit| ==> IsPath(adj, qpaths[k], start, toVisit[k].0) && |qpaths[k]| == toVisit[k].1 + 1)
  }

  /** Queued hop counts never decrease, span at most one, and are at least every recorded count. */
  ghost predicate FifoOrder(visited: set<nat>, rec: map<nat, nat>, q: seq<(nat, nat)>)
    requires visited == rec.Keys
  {
    (forall k, l :: 0 <= k < l < |q| ==> q[k].1 <= q[l].1) &&
    (forall l :: 0 <= l < |q| ==> q[l].1 <= q[0].1 + 1) &&
    (q != [] ==> forall c :: c in visited ==> rec[c] <= q[0].1)
  }

  /** Each tunnel out of a recorded room leads to a room recorded at most one further, or is still queued. */
  ghost predicate Closure(adj: seq<seq<nat>>, visited: set<nat>, rec: map<nat, nat>, toVisit: seq<(nat, nat)>)
    requires Graph(adj) && visited == rec.Keys && (forall c :: c in visited ==> c < |adj|)
  {
    forall v, m :: v in visited && 0 <= m < |adj[v]| ==>
      (adj[v][m] in visited && rec[adj[v][m]] <= rec[v] + 1) || (adj[v][m], rec[v] + 1) in toVisit
  }

  ghost predicate Frontier(adj: seq<seq<nat>>, start: nat, visited: set<nat>, rec: map<nat, nat>,
                           paths: map<nat, seq<nat>>, toVisit: seq<(nat, nat)>, qpaths: seq<seq<nat>>)
  {
    Shape(adj, start, visited, rec, paths, toVisit, qpaths) &&
    Witnessed(adj, start, visited, rec, paths, toVisit, qpaths) &&
    FifoOrder(visited, rec, toVisit) &&
    Closure(adj, visited, rec, toVisit)
  }

  function NextPaths(adj: seq<seq<nat>>, c: nat, path: seq<nat>): (r: seq<seq<nat>>)
    requires c < |adj|
    ensures |r| == |adj[c]| && forall k :: 0 <= k < |r| ==> r[k] == path + [adj[c][k]]
  {
    seq(|adj[c]|, k requires 0 <= k < |adj[c]| => path + [adj[c][k]])
  }

  lemma FifoSkip(visited: set<nat>, rec: map<nat, nat>, q: seq<(nat, nat)>)
    requires visited == rec.Keys && FifoOrder(visited, rec, q) && q != []
    ensures FifoOrder(visited, rec, q[1..])
  {
  }

  /** The queued distances never decrease from front to back. */
  predicate Sorted(q: seq<(nat, nat)>)
  {
    forall k, l :: 0 <= k < l < |q| ==> q[k].1 <= q[l].1
  }

  /** Every queued distance lies between `lo` and `hi`. */
  predicate Within(q: seq<(nat, nat)>, lo: nat, hi: nat)
  {
    forall k :: 0 <= k < |q| ==> lo <= q[k].1 <= hi
  }

  /** Behind a front at distance `d`, the rest of a FIFO queue is sorted and within `d` and `d + 1`. */
  lemma FifoTail(visited: set<nat>, rec: map<nat, nat>, q: seq<(nat, nat)>)
    requires visited == rec.Keys && FifoOrder(visited, rec, q) && q != []
    ensures Sorted(q[1..]) && Within(q[1..], q[0].1, q[0].1 + 1)
  {
    forall k, l | 0 <= k < l < |q[1..]| ensures q[1..][k].1 <= q[1..][l].1 {
      assert q[1..][k] == q[k + 1] && q[1..][l] == q[l + 1];
    }
    forall k | 0 <= k < |q[1..]| ensures q[0].1 <= q[1..][k].1 <= q[0].1 + 1 {
      assert q[1..][k] == q[k + 1];
    }
  }

  /** Appending entries one further than everything queued keeps the queue sorted. */
  lemma SortedAppend(a: seq<(nat, nat)>, b: seq<(nat, nat)>, d: nat)
    requires Sorted(a) && Within(a, d, d + 1) && Within(b, d + 1, d + 1)
    ensures Sorted(a + b) && Within(a + b, d, d + 1)
  {
    var t := a + b;
    forall k | 0 <= k < |t| ensures t[k] == (if k < |a| then a[k] else b[k - |a|]) {
    }
    forall k, l | 0 <= k < l < |t| ensures t[k].1 <= t[l].1 {
      if l < |a| {
        assert t[k] == a[k] && t[l] == a[l];
      }
    }
  }

  lemma FifoVisit(visited: set<nat>, rec: map<nat, nat>, q: seq<(nat, nat)>, next: seq<(nat, nat)>)
    requires visited == rec.Keys && FifoOrder(visited, rec, q) && q != []
    requires forall k :: 0 <= k < |next| ==> next[k].1 == q[0].1 + 1
    ensures FifoOrder(visited + {q[0].0}, rec[q[0].0 := q[0].1], q[1..] + next)
  {
    var d := q[0].1;
    var q' := q[1..] + next;
    var visited', rec' := visited + {q[0].0}, rec[q[0].0 := d];
    FifoTail(visited, rec, q);
    SortedAppend(q[1..], next, d);
    if q' != [] {
      assert d <= q'[0].1;
      forall c | c in visited' ensures rec'[c] <= q'[0].1 {
        if c != q[0].0 {
          assert rec[c] <= d;
        }
      }
    }
  }

  lemma ClosureSkip(adj: seq<seq<nat>>, visited: set<nat>, rec: map<nat, nat>, toVisit: seq<(nat, nat)>)
    requires Graph(adj) && visited == rec.Keys && (forall c :: c in visited ==> c < |adj|)
    requires Closure(adj, visited, rec, toVisit)
    requires toVisit != [] && toVisit[0].0 in visited && rec[toVisit[0].0] <= toVisit[0].1
    ensures Closure(adj, visited, rec, toVisit[1..])
  {
    var q := toVisit[1..];
    forall v, m | v in visited && 0 <= m < |adj[v]|
      ensures (adj[v][m] in visited && rec[adj[v][m]] <= rec[v] + 1) || (adj[v][m], rec[v] + 1) in q
    {
      if (adj[v][m], rec[v] + 1) in toVisit && (adj[v][m], rec[v] + 1) !in q {
        assert toVisit == [toVisit[0]] + q;
        assert toVisit[0] == (adj[v][m], rec[v] + 1);
      }
    }
  }

  lemma ClosureVisit(adj: seq<seq<nat>>, visited: set<nat>, rec: map<nat, nat>, toVisit: seq<(nat, nat)>)
    requires Graph(adj) && visited == rec.Keys && (forall c :: c in visited ==> c < |adj|)
    requires Closure(adj, visited, rec, toVisit)
    requires toVisit != [] && toVisit[0].0 < |adj| && toVisit[0].0 !in visited
    ensures Closure(adj, visited + {toVisit[0].0}, rec[toVisit[0].0 := toVisit[0].1],
                    toVisit[1..] + Enqueue(adj, toVisit[0].0, toVisit[0].1))
  {
    var (c, d) := toVisit[0];
    var next := Enqueue(adj, c, d);
    var q := toVisit[1..] + next;
    var visited', rec' := visited + {c}, rec[c := d];
    forall v, m | v in visited' && 0 <= m < |adj[v]|
      ensures (adj[v][m] in visited' && rec'[adj[v][m]] <= rec'[v] + 1) || (adj[v][m], rec'[v] + 1) in q
    {
      if v == c {
        assert q[|toVisit| - 1 + m] == next[m];
      } else if (adj[v][m] in visited && rec[adj[v][m]] <= rec[v] + 1) {
      } else if (adj[v][m], rec[v] + 1) in toVisit[1..] {
        var j :| 0 <= j < |toVisit[1..]| && toVisit[1..][j] == (adj[v][m], rec[v] + 1);
        assert q[j] == (adj[v][m], rec[v] + 1);
      } else {
        assert toVisit == [toVisit[0]] + toVisit[1..];
      }
    }
  }

  lemma WitnessedSkip(adj: seq<seq<nat>>, start: nat, visited: set<nat>, rec: map<nat, nat>,
                      paths: map<nat, seq<nat>>, toVisit: seq<(nat, nat)>, qpaths: seq<seq<nat>>)
    requires visited == rec.Keys == paths.Keys && |qpaths| == |toVisit| && toVisit != []
    requires Witnessed(adj, start, visited, rec, paths, toVisit, qpaths)
    ensures Witnessed(adj, start, visited, rec, paths, toVisit[1..], qpaths[1..])
  {
    forall k | 0 <= k < |toVisit| - 1
      ensures IsPath(adj, qpaths[1..][k], start, toVisit[1..][k].0) && |qpaths[1..][k]| == toVisit[1..][k].1 + 1
    {
      assert qpaths[1..][k] == qpaths[k + 1] && toVisit[1..][k] == toVisit[k + 1];
    }
  }

  lemma WitnessedVisit(adj: seq<seq<nat>>, start: nat, visited: set<nat>, rec: map<nat, nat>,
                       paths: map<nat, seq<nat>>, toVisit: seq<(nat, nat)>, qpaths: seq<seq<nat>>)
    requires Graph(adj) && visited == rec.Keys == paths.Keys && |qpaths| == |toVisit| && toVisit != []
    requires toVisit[0].0 < |adj|
    requires Witnessed(adj, start, visited, rec, paths, toVisit, qpaths)
    ensures Witnessed(adj, start, visited + {toVisit[0].0}, rec[toVisit[0].0 := toVisit[0].1],
                      paths[toVisit[0].0 := qpaths[0]],
                      toVisit[1..] + Enqueue(adj, toVisit[0].0, toVisit[0].1),
                      qpaths[1..] + NextPaths(adj, toVisit[0].0, qpaths[0]))
  {
    var (c, d) := toVisit[0];
    var next := Enqueue(adj, c, d);
    var q := toVisit[1..] + next;
    var qp := qpaths[1..] + NextPaths(adj, c, qpaths[0]);
    assert IsPath(adj, qpaths[0], start, c);
    forall k | 0 <= k < |q| ensures IsPath(adj, qp[k], start, q[k].0) && |qp[k]| == q[k].1 + 1 {
      if k >= |toVisit| - 1 {
        var m := k - (|toVisit| - 1);
        assert q[k] == next[m] && qp[k] == qpaths[0] + [adj[c][m]];
        assert adj[c][m] in adj[c];
        var w := qp[k];
        assert forall i :: 0 <= i < |w| - 1 ==> w[i] == qpaths[0][i];
      } else {
        assert q[k] == toVisit[k + 1] && qp[k] == qpaths[k + 1];
      }
    }
  }

  /** Dequeuing a room already recorded keeps the search state. */
  lemma FrontierSkip(adj: seq<seq<nat>>, start: nat, visited: set<nat>, rec: map<nat, nat>,
                     paths: map<nat, seq<nat>>, toVisit: seq<(nat, nat)>, qpaths: seq<seq<nat>>)
    requires Frontier(adj, start, visited, rec, paths, toVisit, qpaths)
    requires toVisit != [] && toVisit[0].0 in visited
    ensures Frontier(adj, start, visited, rec, paths, toVisit[1..], qpaths[1..])
  {
    FifoSkip(visited, rec, toVisit);
    ClosureSkip(adj, visited, rec, toVisit);
    WitnessedSkip(adj, start, visited, rec, paths, toVisit, qpaths);
  }

  /** Recording the dequeued room and enqueuing its tunnels keeps the search state. */
  lemma FrontierVisit(adj: seq<seq<nat>>, start: nat, visited: set<nat>, rec: map<nat, nat>,
                      paths: map<nat, seq<nat>>, toVisit: seq<(nat, nat)>, qpaths: seq<seq<nat>>)
    requires Frontier(adj, start, visited, rec, paths, toVisit, qpaths)
    requires toVisit != [] && toVisit[0].0 !in visited
    ensures toVisit[0].0 == start ==> toVisit[0].1 == 0
    ensures Frontier(adj, start, visited + {toVisit[0].0}, rec[toVisit[0].0 := toVisit[0].1],
                     paths[toVisit[0].0 := qpaths[0]],
                     toVisit[1..] + Enqueue(adj, toVisit[0].0, toVisit[0].1),
                     qpaths[1..] + NextPaths(adj, toVisit[0].0, qpaths[0]))
  {
    FifoVisit(visited, rec, toVisit, Enqueue(adj, toVisit[0].0, toVisit[0].1));
    ClosureVisit(adj, visited, rec, toVisit);
    WitnessedVisit(adj, start, visited, rec, paths, toVisit, qpaths);
  }

  /** When the queue is empty the recorded rooms are exactly the reachable ones, each with its hop count. */
  lemma FrontierDone(adj: seq<seq<nat>>, start: nat, visited: set<nat>, rec: map<nat, nat>,
                     paths: map<nat, seq<nat>>)
    requires Frontier(adj, start, visited, rec, paths, [], [])
    ensures forall c :: Reachable(adj, start, c) ==> c in visited && IsDistance(adj, start, c, rec[c])
    ensures forall c :: c in visited ==> Reachable(adj, start, c)
  {
    forall c | Reachable(adj, start, c) ensures c in visited && IsDistance(adj, start, c, rec[c]) {
      var w :| IsPath(adj, w, start, c);
      ClosedReach(adj, rec, start, w, c);
      forall v | IsPath(adj, v, start, c) ensures |v| >= rec[c] + 1 {
        ClosedReach(adj, rec, start, v, c);
      }
      assert IsPath(adj, paths[c], start, c);
    }
    forall c | c in visited ensures Reachable(adj, start, c) {
      assert IsPath(adj, paths[c], start, c);
    }
  }

  /** A square table of `n` rows of `n` entries. */
  predicate Table(d: seq<seq<nat>>, n: nat)
  {
    |d| == n && forall i :: 0 <= i < n ==> |d[i]| == n
  }

  /** Entry `[i][j]` once the search from `start` has recorded the hop counts `rec` over `before`. */
  ghost function Written(before: seq<seq<nat>>, start: nat, rec: map<nat, nat>, i: nat, j: nat): nat
    requires i < |before| && j < |before[i]|
  {
    if i == start && j in rec then rec[j]
    else if j == start && i in rec then rec[i]
    else before[i][j]
  }

  /**
   * One breadth-first search from `start` (the body of the loop over start
   * rooms): every room reached is written at `[start][room]` and mirrored at
   * `[room][start]`, with its minimum hop count; nothing else is written.
   */
  method VisitFrom(adj: seq<seq<nat>>, start: nat, distances: seq<seq<nat>>) returns (result: seq<seq<nat>>)
    requires Graph(adj) && start < |adj| && Table(distances, |adj|)
    ensures Table(result, |adj|)
    ensures forall i, j :: 0 <= i < |adj| && 0 <= j < |adj| && i != start && j != start ==>
      result[i][j] == distances[i][j]
    ensures forall c :: 0 <= c < |adj| && Reachable(adj, start, c) ==>
      result[start][c] == result[c][start] && IsDistance(adj, start, c, result[start][c])
    ensures forall c :: 0 <= c < |adj| && !Reachable(adj, start, c) ==>
      result[start][c] == distances[start][c] && result[c][start] == distances[c][start]
  {
    var n := |adj|;
    result := distances;
    FilledEmpty(distances, start);
    var visited: set<nat> := {};
    var toVisit: seq<(nat, nat)> := [(start, 0)];
    ghost var rec: map<nat, nat> := map[];
    ghost var paths: map<nat, seq<nat>> := map[];
    ghost var qpaths: seq<seq<nat>> := [[start]];
    assert IsPath(adj, qpaths[0], start, start);
    while toVisit != []
      invariant Frontier(adj, start, visited, rec, paths, toVisit, qpaths)
      invariant result == Filled(distances, start, rec)
      decreases n - |visited|, |toVisit|
    {
      var (current, distance) := toVisit[0];
      if current in visited {
        FrontierSkip(adj, start, visited, rec, paths, toVisit, qpaths);
        toVisit, qpaths := toVisit[1..], qpaths[1..];
        continue;
      }
      FrontierVisit(adj, start, visited, rec, paths, toVisit, qpaths);
      FilledStep(distances, start, rec, current, distance);
      result := Record(result, start, current, distance);
      visited := visited + {current};
      rec := rec[current := distance];
      paths := paths[current := qpaths[0]];
      BoundedCard(visited, n);
      toVisit, qpaths := toVisit[1..] + Enqueue(adj, current, distance), qpaths[1..] + NextPaths(adj, current, qpaths[0]);
    }
    WrittenDone(adj, start, visited, rec, paths, distances, result);
  }

  /** Once the queue is empty, the written entries are the hop counts of the reachable rooms and nothing else changed. */
  lemma WrittenDone(adj: seq<seq<nat>>, start: nat, visited: set<nat>, rec: map<nat, nat>, paths: map<nat, seq<nat>>,
                    distances: seq<seq<nat>>, result: seq<seq<nat>>)
    requires Frontier(adj, start, visited, rec, paths, [], [])
    requires Table(distances, |adj|) && result == Filled(distances, start, rec)
    ensures Table(result, |adj|)
    ensures forall i, j :: 0 <= i < |adj| && 0 <= j < |adj| && i != start && j != start ==>
      result[i][j] == distances[i][j]
    ensures forall c :: 0 <= c < |adj| && Reachable(adj, start, c) ==>
      result[start][c] == result[c][start] && IsDistance(adj, start, c, result[start][c])
    ensures forall c :: 0 <= c < |adj| && !Reachable(adj, start, c) ==>
      result[start][c] == distances[start][c] && result[c][start] == distances[c][start]
  {
    FrontierDone(adj, start, visited, rec, paths);
    forall i, j | 0 <= i < |adj| && 0 <= j < |adj| && i != start && j != start
      ensures result[i][j] == distances[i][j]
    {
      assert result[i][j] == Written(distances, start, rec, i, j);
    }
    forall c | 0 <= c < |adj|
      ensures Reachable(adj, start, c) ==> result[start][c] == result[c][start] == rec[c]
      ensures !Reachable(adj, start, c) ==> result[start][c] == distances[start][c] && result[c][start] == distances[c][start]
    {
      assert result[start][c] == Written(distances, start, rec, start, c);
      assert result[c][start] == Written(distances, start, rec, c, start);
    }
  }

  /** The two writes for a room reached: `[start][c]` and `[c][start]` become `d`. */
  function Record(table: seq<seq<nat>>, start: nat, c: nat, d: nat): (r: seq<seq<nat>>)
    requires Table(table, |table|) && start < |table| && c < |table|
    ensures Table(r, |table|)
  {
    var row: seq<nat> := table[start][c := d];
    var t := table[start := row];
    var col: seq<nat> := t[c][start := d];
    t[c := col]
  }

  /** The table once the search from `start` has recorded the hop counts `rec` over `before`. */
  ghost function Filled(before: seq<seq<nat>>, start: nat, rec: map<nat, nat>): (r: seq<seq<nat>>)
    requires Table(before, |before|)
    ensures Table(r, |before|)
  {
    seq(|before|, i requires 0 <= i < |before| => seq(|before|, j requires 0 <= j < |before| => Written(before, start, rec, i, j)))
  }

  lemma FilledEmpty(before: seq<seq<nat>>, start: nat)
    requires Table(before, |before|)
    ensures Filled(before, start, map[]) == before
  {
    var r := Filled(before, start, map[]);
    forall i | 0 <= i < |before| ensures r[i] == before[i] {
      assert forall j :: 0 <= j < |before| ==> r[i][j] == before[i][j];
    }
  }

  /** Recording a room not yet reached adds exactly its two entries to the filled table. */
  lemma FilledStep(before: seq<seq<nat>>, start: nat, rec: map<nat, nat>, c: nat, d: nat)
    requires Table(before, |before|) && start < |before| && c < |before| && c !in rec
    requires c == start ==> d == 0
    requires start in rec ==> rec[start] == 0
    ensures Record(Filled(before, start, rec), start, c, d) == Filled(before, start, rec[c := d])
  {
    var n := |before|;
    var lhs, rhs := Record(Filled(before, start, rec), start, c, d), Filled(before, start, rec[c := d]);
    forall i | 0 <= i < n ensures lhs[i] == rhs[i] {
      forall j | 0 <= j < n ensures lhs[i][j] == rhs[i][j] {
        if (i == start && j == c) || (i == c && j == start) {
        } else {
          assert lhs[i][j] == Written(before, start, rec, i, j);
        }
      }
    }
  }

  /**
   * The distance table: `distances[s][c]` is the fewest tunnels from `s` to
   * `c` on an undirected map, the table is symmetric with a zero diagonal,
   * and pairs not connected either way keep their initial 0.
   */
  method ComputeDistances(adj: seq<seq<nat>>) returns (distances: seq<seq<nat>>)
    requires Graph(adj)
    ensures Table(distances, |adj|)
    ensures forall i :: 0 <= i < |adj| ==> distances[i][i] == 0
    ensures forall i, j :: 0 <= i < |adj| && 0 <= j < |adj| ==> distances[i][j] == distances[j][i]
    ensures forall i, j :: 0 <= i < |adj| && 0 <= j < |adj| && !Reachable(adj, i, j) && !Reachable(adj, j, i) ==>
      distances[i][j] == 0
    ensures Undirected(adj) ==> forall i, j :: 0 <= i < |adj| && 0 <= j < |adj| && Reachable(adj, i, j) ==>
      IsDistance(adj, i, j, distances[i][j])
  {
    var n := |adj|;
    distances := seq(n, i => seq(n, j => 0));
    for start := 0 to n
      invariant Table(distances, n)
      invariant forall i :: 0 <= i < n ==> distances[i][i] == 0
      invariant forall i, j :: 0 <= i < n && 0 <= j < n ==> distances[i][j] == distances[j][i]
      invariant forall i, j :: 0 <= i < n && 0 <= j < n && distances[i][j] != 0 ==>
        (i < start && Reachable(adj, i, j)) || (j < start && Reachable(adj, j, i))
      invariant Undirected(adj) ==> forall i, j :: 0 <= i < start && 0 <= j < n && Reachable(adj, i, j) ==>
        IsDistance(adj, i, j, distances[i][j])
    {
      distances := VisitFrom(adj, start, distances);
      forall i | 0 <= i < n ensures distances[i][i] == 0 {
        if i == start && Reachable(adj, start, start) {
          assert IsPath(adj, [start], start, start);
        }
      }
      if Undirected(adj) {
        forall i, j | 0 <= i < start + 1 && 0 <= j < n && Reachable(adj, i, j)
          ensures IsDistance(adj, i, j, distances[i][j])
        {
          if i != start && j == start {
            var w :| IsPath(adj, w, i, j);
            ReversePath(adj, w, i, j);
            assert Reachable(adj, start, i);
            DistanceSymmetric(adj, start, i, distances[start][i]);
          }
        }
      }
    }
  }

  // ------------------------------------------------------ shared helpers

  /** Total flow of the valves not yet visited. */
  function Unvisited(flow: seq<nat>, visited: seq<bool>): nat
    requires |flow| == |visited|
  {
    if flow == [] then 0
    else
      var last := if visited[|visited| - 1] then 0 else flow[|flow| - 1];
      Unvisited(flow[..|flow| - 1], visited[..|visited| - 1]) + last
  }

  /** Marking an unvisited room takes exactly its flow out of the unvisited total. */
  lemma {:induction false} UnvisitedMark(flow: seq<nat>, visited: seq<bool>, i: nat)
    requires |flow| == |visited| && i < |flow| && !visited[i]
    ensures Unvisited(flow, visited[i := true]) + flow[i] == Unvisited(flow, visited)
  {
    var n := |flow|;
    if i < n - 1 {
      assert visited[i := true][..n - 1] == visited[..n - 1][i := true];
      UnvisitedMark(flow[..n - 1], visited[..n - 1], i);
    } else {
      assert visited[i := true][..n - 1] == visited[..n - 1];
    }
  }

  lemma MulMono(a: nat, b: nat, c: nat)
    requires b <= c
    ensures a * b <= a * c
  {
    assert a * c - a * b == a * (c - b);
  }

  /** Opening a valve of flow `f` now and bounding the rest over a shorter time stays within the bound. */
  lemma ChildBound(f: nat, a: nat, t: nat, t': nat)
    requires f <= a && t' <= t
    ensures t * f + (a - f) * t' <= a * t
  {
    MulMono(a - f, t', t);
    assert t * f + (a - f) * t == a * t;
  }

  /** The same for two explorers opening valves of flows `f0` and `f1` with times at most `tm`. */
  lemma ChildBound2(f0: nat, f1: nat, a: nat, t0: nat, t1: nat, tm: nat, t': nat)
    requires f0 + f1 <= a && t0 <= tm && t1 <= tm && t' <= tm
    ensures t0 * f0 + t1 * f1 + (a - f0 - f1) * t' <= a * tm
  {
    MulMono(f0, t0, tm);
    MulMono(f1, t1, tm);
    MulMono(a - f0 - f1, t', tm);
    assert f0 * tm + f1 * tm + (a - f0 - f1) * tm == a * tm;
  }

  // ---------------------------------------------------- one explorer

  datatype State1 = State1(released: nat, available: nat, room: nat, timeLeft: nat)

  /** Pressure still obtainable at best: what is released plus every open-able valve for the whole remaining time. */
  function Bound1(s: State1): nat { s.released + s.available * s.timeLeft }

  /**
   * Depth-first search for one explorer. It never lowers `best`, returns
   * without change when the bound does not beat `best`, records the
   * pressure of opening the current valve, never exceeds the bound, and
   * leaves `visited` as it found it.
   */
  method FindPressure1(flow: seq<nat>, distances: seq<seq<nat>>, state: State1, visited: array<bool>, best: nat)
    returns (newBest: nat)
    requires |flow| == visited.Length && Table(distances, |flow|)
    requires state.room < |flow| && visited[state.room]
    requires state.available == Unvisited(flow, visited[..]) + flow[state.room]
    modifies visited
    ensures visited[..] == old(visited[..])
    ensures best <= newBest <= Max(best, Bound1(state))
    ensures Bound1(state) <= best ==> newBest == best
    ensures Bound1(state) > best ==> newBest >= state.released + state.timeLeft * flow[state.room]
    decreases state.timeLeft
  {
    if Bound1(state) <= best {
      return best;
    }
    var n := |flow|;
    var released := state.released + state.timeLeft * flow[state.room];
    MulMono(state.timeLeft, flow[state.room], state.available);
    newBest := Max(best, released);
    for tunnel := 0 to n
      invariant visited[..] == old(visited[..])
      invariant released <= newBest && best <= newBest <= Max(best, Bound1(state))
    {
      if flow[tunnel] == 0 || visited[tunnel] || state.timeLeft < distances[state.room][tunnel] + 1 {
        continue;
      }
      ghost var before := visited[..];
      visited[tunnel] := true;
      UnvisitedMark(flow, before, tunnel);
      var child := State1(released, state.available - flow[state.room], tunnel,
                          state.timeLeft - (distances[state.room][tunnel] + 1));
      ChildBound(flow[state.room], state.available, state.timeLeft, child.timeLeft);
      assert Bound1(child) <= Bound1(state);
      newBest := FindPressure1(flow, distances, child, visited, newBest);
      visited[tunnel] := false;
      assert visited[..] == before;
    }
  }

  // ------------------------------------------------- two explorers

  datatype State2 = State2(released: nat, available: nat, room0: nat, room1: nat, time0: nat, time1: nat)

  function Bound2(s: State2): nat { s.released + s.available * Max(s.time0, s.time1) }

  predicate Pruned2(s: State2, best: nat)
  {
    s.released + s.available * s.time0 <= best || s.released + s.available * s.time1 <= best
  }

  /** What the two-explorer search assumes of its state: both rooms visited, the available flow accounted for. */
  predicate Ready2(flow: seq<nat>, distances: seq<seq<nat>>, state: State2, visited: seq<bool>)
  {
    |flow| == |visited| && Table(distances, |flow|) &&
    state.room0 < |flow| && state.room1 < |flow| && visited[state.room0] && visited[state.room1] &&
    (state.room0 == state.room1 ==> flow[state.room0] == 0) &&
    state.available == Unvisited(flow, visited) + flow[state.room0] + flow[state.room1]
  }

  /**
   * Depth-first search for two explorers: both move (never to the same room)
   * in the first loop, only the second one moves in the second loop. It
   * never lowers `best`, returns without change when either explorer's bound
   * does not beat `best`, records the pressure of the two current valves,
   * never exceeds the bound taken with the larger remaining time, and leaves
   * `visited` as it found it.
   */
  method FindPressure2(flow: seq<nat>, distances: seq<seq<nat>>, state: State2, visited: array<bool>, best: nat)
    returns (newBest: nat)
    requires visited.Length == |flow| && Ready2(flow, distances, state, visited[..])
    modifies visited
    ensures visited[..] == old(visited[..])
    ensures best <= newBest <= Max(best, Bound2(state))
    ensures Pruned2(state, best) ==> newBest == best
    ensures !Pruned2(state, best) ==>
      newBest >= state.released + state.time0 * flow[state.room0] + state.time1 * flow[state.room1]
    decreases state.time0 + state.time1, 2
  {
    if Pruned2(state, best) {
      return best;
    }
    var released := state.released + state.time0 * flow[state.room0] + state.time1 * flow[state.room1];
    ChildBound2(flow[state.room0], flow[state.room1], state.available, state.time0, state.time1,
                Max(state.time0, state.time1), 0);
    newBest := Max(best, released);
    newBest := MoveBoth(flow, distances, state, visited, newBest, released);
    newBest := MoveSecond(flow, distances, state, visited, newBest);
  }

  /** The first loop of the two-explorer search: each explorer goes to a different closed valve. */
  method MoveBoth(flow: seq<nat>, distances: seq<seq<nat>>, state: State2, visited: array<bool>, best: nat, released: nat)
    returns (newBest: nat)
    requires visited.Length == |flow| && Ready2(flow, distances, state, visited[..])
    requires released == state.released + state.time0 * flow[state.room0] + state.time1 * flow[state.room1]
    modifies visited
    ensures visited[..] == old(visited[..])
    ensures best <= newBest <= Max(best, Bound2(state))
    decreases state.time0 + state.time1, 1
  {
    var n := |flow|;
    var r0, r1, t0, t1 := state.room0, state.room1, state.time0, state.time1;
    newBest := best;
    for neighbor0 := 0 to n
      invariant visited[..] == old(visited[..])
      invariant best <= newBest <= Max(best, Bound2(state))
    {
      if flow[neighbor0] == 0 || visited[neighbor0] || t0 < distances[r0][neighbor0] + 1 {
        continue;
      }
      ghost var before0 := visited[..];
      visited[neighbor0] := true;
      UnvisitedMark(flow, before0, neighbor0);
      for neighbor1 := 0 to n
        invariant visited[..] == before0[neighbor0 := true]
        invariant best <= newBest <= Max(best, Bound2(state))
      {
        if flow[neighbor1] == 0 || visited[neighbor1] || t1 < distances[r1][neighbor1] + 1 {
          continue;
        }
        ghost var before1 := visited[..];
        visited[neighbor1] := true;
        UnvisitedMark(flow, before1, neighbor1);
        var child := State2(released, state.available - (flow[r0] + flow[r1]), neighbor0, neighbor1,
                            t0 - (distances[r0][neighbor0] + 1), t1 - (distances[r1][neighbor1] + 1));
        ChildBound2(flow[r0], flow[r1], state.available, t0, t1, Max(t0, t1), Max(child.time0, child.time1));
        assert Bound2(child) <= Bound2(state);
        newBest := FindPressure2(flow, distances, child, visited, newBest);
        visited[neighbor1] := false;
        assert visited[..] == before1;
      }
      visited[neighbor0] := false;
      assert visited[..] == before0;
    }
  }

  /** The second loop of the two-explorer search: only the second explorer moves on. */
  method MoveSecond(flow: seq<nat>, distances: seq<seq<nat>>, state: State2, visited: array<bool>, best: nat)
    returns (newBest: nat)
    requires visited.Length == |flow| && Ready2(flow, distances, state, visited[..])
    modifies visited
    ensures visited[..] == old(visited[..])
    ensures best <= newBest <= Max(best, Bound2(state))
    decreases state.time0 + state.time1, 1
  {
    var n := |flow|;
    var r0, r1, t0, t1 := state.room0, state.room1, state.time0, state.time1;
    newBest := best;
    for neighbor1 := 0 to n
      invariant visited[..] == old(visited[..])
      invariant best <= newBest <= Max(best, Bound2(state))
    {
      if flow[neighbor1] == 0 || visited[neighbor1] || t1 < distances[r1][neighbor1] + 1 {
        continue;
      }
      ghost var before := visited[..];
      visited[neighbor1] := true;
      UnvisitedMark(flow, before, neighbor1);
      var child := State2(state.released + t1 * flow[r1], state.available - flow[r1], r0, neighbor1,
                          t0, t1 - (distances[r1][neighbor1] + 1));
      ChildBound2(0, flow[r1], state.available, t0, t1, Max(t0, t1), Max(child.time0, child.time1));
      assert Bound2(child) <= Bound2(state);
      newBest := FindPressure2(flow, distances, child, visited, newBest);
      visited[neighbor1] := false;
      assert visited[..] == before;
    }
  }

  // ------------------------------------------------------- the two parts

  /** Position of the first room with the given name (`Iterator::position`). */
  function FirstIndexOf(rooms: seq<Room>, name: string): (r: Option<nat>)
    ensures r.Some? ==> r.value < |rooms| && rooms[r.value].name == name
    ensures r.Some? ==> forall j :: 0 <= j < r.value ==> rooms[j].name != name
    ensures r.None? ==> forall j :: 0 <= j < |rooms| ==> rooms[j].name != name
  {
    if rooms == [] then None
    else if rooms[0].name == name then Some(0)
    else match FirstIndexOf(rooms[1..], name)
      case None => None
      case Some(k) => Some(k + 1)
  }

  function Flows(rooms: seq<Room>): (f: seq<nat>)
    ensures |f| == |rooms| && forall i :: 0 <= i < |rooms| ==> f[i] == rooms[i].flowRate
  {
    seq(|rooms|, i requires 0 <= i < |rooms| => rooms[i].flowRate)
  }

  function TotalFlow(flow: seq<nat>): nat
  {
    if flow == [] then 0 else TotalFlow(flow[..|flow| - 1]) + flow[|flow| - 1]
  }

  lemma {:induction false} UnvisitedAllButOne(flow: seq<nat>, start: nat)
    requires start < |flow|
    ensures Unvisited(flow, seq(|flow|, i => i == start)) + flow[start] == TotalFlow(flow)
  {
    var n := |flow|;
    var vis := seq(n, i => i == start);
    if start < n - 1 {
      assert vis[..n - 1] == seq(n - 1, i => i == start);
      UnvisitedAllButOne(flow[..n - 1], start);
    } else {
      assert vis[..n - 1] == seq(n - 1, i => false);
      NoneVisited(flow[..n - 1]);
    }
  }

  lemma {:induction false} NoneVisited(flow: seq<nat>)
    ensures Unvisited(flow, seq(|flow|, i => false)) == TotalFlow(flow)
  {
    if flow != [] {
      assert seq(|flow|, i => false)[..|flow| - 1] == seq(|flow| - 1, i => false);
      NoneVisited(flow[..|flow| - 1]);
    }
  }

  /** The visited flags at the start: only the start room; every other valve's flow is available. */
  method StartVisited(flow: seq<nat>, start: nat) returns (visited: array<bool>)
    requires start < |flow|
    ensures fresh(visited) && visited.Length == |flow|
    ensures visited[..] == seq(|flow|, i => i == start)
    ensures Unvisited(flow, visited[..]) + flow[start] == TotalFlow(flow)
  {
    visited := new bool[|flow|](i => false);
    visited[start] := true;
    assert visited[..] == seq(|flow|, i => i == start);
    UnvisitedAllButOne(flow, start);
  }

  /**
   * Most pressure one explorer releases in 30 minutes from room "AA".
   * Panics when a tunnel names no room or there is no room "AA".
   */
  method Part1(rooms: seq<Room>) returns (r: Result<nat>)
    ensures r.Ok? <==> Adjacency(rooms).Some? && FirstIndexOf(rooms, "AA").Some?
    ensures r.Ok? ==> 30 * rooms[FirstIndexOf(rooms, "AA").value].flowRate <= r.value <= 30 * TotalFlow(Flows(rooms))
  {
    var adj := Adjacency(rooms);
    var start := FirstIndexOf(rooms, "AA");
    if adj.None? || start.None? {
      return Panic;
    }
    var distances := ComputeDistances(adj.value);
    var flow := Flows(rooms);
    var visited := StartVisited(flow, start.value);
    var state := State1(0, TotalFlow(flow), start.value, 30);
    var pressure := FindPressure1(flow, distances, state, visited, 0);
    return Ok(pressure);
  }

  /**
   * Most pressure two explorers release in 26 minutes, both starting in
   * room "AA", whose valve must have no flow (the start room is counted for
   * each explorer).
   */
  method Part2(rooms: seq<Room>) returns (r: Result<nat>)
    requires forall i :: 0 <= i < |rooms| && rooms[i].name == "AA" ==> rooms[i].flowRate == 0
    ensures r.Ok? <==> Adjacency(rooms).Some? && FirstIndexOf(rooms, "AA").Some?
    ensures r.Ok? ==> r.value <= 26 * TotalFlow(Flows(rooms))
  {
    var adj := Adjacency(rooms);
    var start := FirstIndexOf(rooms, "AA");
    if adj.None? || start.None? {
      return Panic;
    }
    var distances := ComputeDistances(adj.value);
    var flow := Flows(rooms);
    var visited := StartVisited(flow, start.value);
    var state := State2(0, TotalFlow(flow), start.value, start.value, 26, 26);
    var pressure := FindPressure2(flow, distances, state, visited, 0);
    return Ok(pressure);
  }
}
