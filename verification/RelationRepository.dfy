/** The relations table and the three breadth-first searches over it. */
module RelationRepository {
  import opened Outcomes
  import opened Tables
  import opened Graph

  /** Rust's `u32`. */
  type U32 = n: nat | n < 0x1_0000_0000

  datatype GraphNode = GraphNode(asset: string, depth: nat, relations: seq<Relation>)

  class Repository {
    var rows: seq<Relation>

    constructor ()
      ensures rows == []
    {
      rows := [];
    }

    /** `r.id` is a new UUID. */
    method Create(r: Relation)
      requires forall old_ :: old_ in rows ==> old_.id != r.id
      modifies this
      ensures rows == old(rows) + [r]
    {
      rows := rows + [r];
    }

    method GetById(id: string) returns (r: Option<Relation>)
      ensures r.Some? ==> r.value in rows && r.value.id == id
      ensures r.None? ==> forall x :: x in rows ==> x.id != id
    {
      var found := Filter((x: Relation) => x.id == id, rows);
      FilterMembers((x: Relation) => x.id == id, rows);
      if found == [] {
        r := None;
      } else {
        assert found[0] in found;
        r := Some(found[0]);
      }
    }

    /** Deletes the rows with the given id; false if there is none. */
    method Delete(id: string) returns (found: bool)
      modifies this
      ensures rows == Filter(Except(id), old(rows))
      ensures found <==> exists x :: x in old(rows) && x.id == id
    {
      var kept := Filter(Except(id), rows);
      FilterMembers(Except(id), rows);
      found := exists x :: x in rows && x.id == id;
      rows := kept;
    }

    method GetAssetRelations(asset: string) returns (found: seq<Relation>)
      ensures found == Touching(rows, asset)
    {
      found := Touching(rows, asset);
    }

    method ListByType(kind: RelationType) returns (found: seq<Relation>)
      ensures found == Filter((x: Relation) => x.kind == kind, rows)
    {
      found := Filter((x: Relation) => x.kind == kind, rows);
    }

    method DeleteByAsset(asset: string)
      modifies this
      ensures rows == Filter(Apart(asset), old(rows))
    {
      rows := Filter(Apart(asset), rows);
    }

    /** Would a relation from `source` to `target` close a cycle? Exactly if relations
        of any type already lead from `target` back to `source`. */
    method WouldCreateCycle(source: string, target: string) returns (cycle: bool)
      ensures cycle <==> Reaches(rows, target, source)
    {
      var visited := {target};
      var queue := [target];
      ghost var expanded: set<string> := {};
      ghost var assets := Assets(rows, target);
      ghost var reach := ReachTest(rows, target);
      while queue != []
        invariant target in visited && visited <= assets && source !in expanded
        invariant Spreading(rows, reach, visited, queue, expanded)
        decreases assets - visited, |queue|
      {
        var current := queue[0];
        ghost var pending := queue[1..];
        assert queue == [current] + pending;
        queue := queue[1..];
        if current == source {
          assert reach(current);
          return true;
        }
        var found := Outgoing(rows, current);
        OutgoingMembers(rows, current);
        var added;
        visited, added := NewTargets(current, found, visited, assets, reach);
        queue := queue + added;
        expanded := expanded + {current};
      }
      ClosedSetHoldsReachable(rows, visited, target);
      return false;
    }

    /** Every asset other than the root that outgoing relations reach from it, once. */
    method GetDescendants(root: string) returns (results: seq<string>)
      ensures NoDuplicates(results)
      ensures forall x :: x in results <==> x != root && Reaches(rows, root, x)
    {
      var visited := {root};
      var queue := [root];
      results := [];
      ghost var expanded: set<string> := {};
      ghost var assets := Assets(rows, root);
      ghost var reach := ReachTest(rows, root);
      while queue != []
        invariant visited <= assets
        invariant root !in results && NoDuplicates(results)
        invariant forall x :: x in visited <==> x == root || x in results
        invariant Spreading(rows, reach, visited, queue, expanded)
        decreases assets - visited, |queue|
      {
        var current := queue[0];
        ghost var pending := queue[1..];
        assert queue == [current] + pending;
        queue := queue[1..];
        var found := Touching(rows, current);
        TouchingMembers(rows, current);
        var added;
        visited, added := NewTargets(current, found, visited, assets, reach);
        NoDuplicatesAppend(results, added);
        results := results + added;
        queue := queue + added;
        expanded := expanded + {current};
      }
      ClosedSetHoldsReachable(rows, visited, root);
    }

    /** Breadth-first search over relations in either direction, to `maxDepth` steps: each
        asset within that distance once, nearest first, with its distance and exactly
        the relations touching it. */
    method TraverseGraph(start: string, maxDepth: U32) returns (results: seq<GraphNode>)
      ensures forall i, j :: 0 <= i < j < |results| ==> results[i].asset != results[j].asset
      ensures forall i, j :: 0 <= i < j < |results| ==> results[i].depth <= results[j].depth
      ensures forall n :: n in results ==>
        Distance(rows, start, n.asset, n.depth) && n.relations == Touching(rows, n.asset)
      ensures forall x ::
        WithinSteps(rows, start, x, maxDepth) <==> exists n :: n in results && n.asset == x
    {
      var visited := {start};
      var queue: seq<(string, nat)> := [(start, 0)];
      results := [];
      ghost var dist: map<string, nat> := map[start := 0];
      ghost var expanded: set<string> := {};
      ghost var level: nat := 0;
      ghost var assets := Assets(rows, start);
      ghost var at := DistanceTest(rows, start);
      assert queue[0].0 == start;
      while queue != []
        invariant visited <= assets
        invariant Searching(rows, start, at, maxDepth, visited, queue, dist, expanded, level)
        invariant Reported(rows, results, expanded, dist, level)
        decreases assets - expanded
      {
        var (current, depth) := queue[0];
        ghost var visits, known := visited, dist;
        NewNeighboursAreFarther(rows, start, at, maxDepth, visited, queue, dist, expanded, level);
        PopOne(rows, start, at, maxDepth, visited, queue, dist, expanded, level);
        queue := queue[1..];
        if depth <= maxDepth {
          var relations := Touching(rows, current);
          ReachedHasRelation(rows, start, at, current, depth);
          ReportOne(rows, results, expanded, dist, level, current, depth);
          if relations != [] || current == start {
            results := results + [GraphNode(current, depth, relations)];
          }
          if depth < maxDepth {
            visited, queue, dist := EnqueueNeighbours(
              start, current, depth, relations, visited, queue, at, dist, expanded, maxDepth, assets);
          }
          ExpandedOne(
            rows, start, at, maxDepth, visits, known, visited, queue, dist, expanded, current, depth);
        }
        expanded := expanded + {current};
        level := depth;
        ReportedStill(rows, results, expanded, known, dist, level);
      }
      AllReported(rows, start, at, maxDepth, visited, dist, expanded, level, results);
    }
  }

  /** The state between two iterations of a directed search. */
  ghost predicate Spreading(
    rows: seq<Relation>, reach: string -> bool, visited: set<string>, queue: seq<string>,
    expanded: set<string>)
  {
    && (forall x :: x in visited ==> reach(x))
    && (forall x :: x in visited <==> x in expanded || x in queue)
    && (forall r :: r in rows && r.source in expanded ==> r.target in visited)
  }

  /** The directed searches' inner loop: the targets of `current`'s outgoing relations that
      were not visited yet, each once, in row order. */
  method NewTargets(
    current: string, found: seq<Relation>, visited0: set<string>,
    ghost assets: set<string>, ghost reach: string -> bool)
    returns (visited: set<string>, added: seq<string>)
    requires visited0 <= assets
    requires forall r :: r in found && r.source == current ==> r.target in assets && reach(r.target)
    ensures visited <= assets && visited0 <= visited
    ensures forall x :: x in visited <==> x in visited0 || x in added
    ensures NoDuplicates(added) && forall x :: x in added ==> x !in visited0 && reach(x)
    ensures visited == visited0 ==> added == []
    ensures forall r :: r in found && r.source == current ==> r.target in visited
  {
    visited, added := visited0, [];
    for i := 0 to |found|
      invariant visited <= assets && visited0 <= visited
      invariant forall x :: x in visited <==> x in visited0 || x in added
      invariant NoDuplicates(added) && forall x :: x in added ==> x !in visited0 && reach(x)
      invariant forall k :: 0 <= k < i && found[k].source == current ==> found[k].target in visited
    {
      var r := found[i];
      assert r in found;
      if r.source == current && r.target !in visited {
        visited := visited + {r.target};
        added := added + [r.target];
      }
    }
    EmptyOrInhabited(added);
  }

  /** The traversal's inner loop: the far ends of `current`'s relations that were not
      visited yet join the queue one step deeper. */
  method EnqueueNeighbours(
    start: string, current: string, depth: U32, relations: seq<Relation>,
    visited0: set<string>, queue0: seq<(string, nat)>, ghost at: (string, nat) -> bool,
    ghost dist0: map<string, nat>, ghost expanded: set<string>, ghost maxDepth: U32,
    ghost assets: set<string>)
    returns (visited: set<string>, queue: seq<(string, nat)>, ghost dist: map<string, nat>)
    requires depth < maxDepth && visited0 <= assets
    requires Enqueuing(start, at, maxDepth, visited0, queue0, dist0, expanded, current, depth)
    requires OneStepFarther(relations, at, visited0, current, depth, assets)
    ensures Enqueuing(start, at, maxDepth, visited, queue, dist, expanded, current, depth)
    ensures Widened(assets, visited0, dist0, visited, dist)
    ensures FarEndsVisited(relations, |relations|, current, visited)
  {
    visited, queue, dist := visited0, queue0, dist0;
    for i := 0 to |relations|
      invariant Enqueuing(start, at, maxDepth, visited, queue, dist, expanded, current, depth)
      invariant Widened(assets, visited0, dist0, visited, dist)
      invariant FarEndsVisited(relations, i, current, visited)
    {
      var next := if relations[i].source == current then relations[i].target else relations[i].source;
      if next !in visited {
        EnqueueOne(start, at, maxDepth, visited, queue, dist, expanded, current, depth, next);
        WidenedOne(assets, visited0, dist0, visited, dist, next, depth, relations, i, current);
        visited := visited + {next};
        var deeper: U32 := depth + 1;
        queue := queue + [(next, deeper)];
        dist := dist[next := deeper];
      }
      FarEndVisited(relations, i, current, visited, next);
    }
  }

  // ---------- What the traversal's loop keeps ----------

  /** `at` is the test "is at distance `d` from `start`". The loop's facts mention only
      `at`; the paths behind it stay out of sight until they are needed. */
  ghost predicate Tests(rows: seq<Relation>, start: string, at: (string, nat) -> bool) {
    forall x, d: nat {:trigger Distance(rows, start, x, d)} :: at(x, d) <==> Distance(rows, start, x, d)
  }

  lemma DistanceTest(rows: seq<Relation>, start: string) returns (at: (string, nat) -> bool)
    ensures Tests(rows, start, at) && at(start, 0)
  {
    at := (x: string, d: nat) => Distance(rows, start, x, d);
    WithinNoSteps(rows, start, start);
  }

  function Other(r: Relation, asset: string): string {
    if r.source == asset then r.target else r.source
  }

  ghost predicate Queued(queue: seq<(string, nat)>, x: string) {
    exists i :: 0 <= i < |queue| && queue[i].0 == x
  }

  /** Every visited asset carries its true distance. */
  ghost predicate Labelled(
    start: string, at: (string, nat) -> bool, visited: set<string>, dist: map<string, nat>,
    maxDepth: nat)
  {
    && dist.Keys == visited && start in visited
    && forall x :: x in visited ==> dist[x] <= maxDepth && at(x, dist[x])
  }

  /** The queue holds distinct labelled assets, nearest first, all at `level` or one more. */
  ghost predicate QueueFrom(queue: seq<(string, nat)>, dist: map<string, nat>, level: nat) {
    && (forall i :: 0 <= i < |queue| ==>
      && queue[i].0 in dist && dist[queue[i].0] == queue[i].1
      && level <= queue[i].1 <= level + 1)
    && (forall i, j :: 0 <= i < j < |queue| ==> queue[i].0 != queue[j].0 && queue[i].1 <= queue[j].1)
  }

  ghost predicate Reported(
    rows: seq<Relation>, results: seq<GraphNode>, expanded: set<string>, dist: map<string, nat>,
    level: nat)
  {
    && (forall n :: n in results ==>
      && n.asset in dist && n.depth == dist[n.asset] && n.depth <= level
      && n.relations == Touching(rows, n.asset))
    && (forall i, j :: 0 <= i < j < |results| ==>
      results[i].asset != results[j].asset && results[i].depth <= results[j].depth)
    && (forall x :: x in expanded <==> exists n :: n in results && n.asset == x)
  }

  ghost predicate NeighboursVisited(
    rows: seq<Relation>, expanded: set<string>, visited: set<string>, dist: map<string, nat>,
    maxDepth: nat)
  {
    && expanded <= visited <= dist.Keys
    && forall r :: r in rows ==>
      && (r.source in expanded && dist[r.source] < maxDepth ==> r.target in visited)
      && (r.target in expanded && dist[r.target] < maxDepth ==> r.source in visited)
  }

  /** Visiting more assets keeps the labels there were. */
  ghost predicate Widened(
    assets: set<string>, visited0: set<string>, dist0: map<string, nat>,
    visited: set<string>, dist: map<string, nat>)
  {
    && visited0 <= visited <= assets
    && forall x :: x in visited0 ==> x in dist0 && x in dist && dist[x] == dist0[x]
  }

  ghost predicate FarEndsVisited(
    relations: seq<Relation>, n: nat, current: string, visited: set<string>)
  {
    n <= |relations| && forall k :: 0 <= k < n ==> Other(relations[k], current) in visited
  }

  /** The state while `current`'s neighbours are being enqueued. */
  ghost predicate Enqueuing(
    start: string, at: (string, nat) -> bool, maxDepth: nat, visited: set<string>,
    queue: seq<(string, nat)>, dist: map<string, nat>, expanded: set<string>,
    current: string, depth: nat)
  {
    && Labelled(start, at, visited, dist, maxDepth)
    && QueueFrom(queue, dist, depth)
    && (forall x :: x in visited <==> x in expanded || x == current || Queued(queue, x))
    && (forall x :: x in expanded || x == current ==> !Queued(queue, x))
  }

  /** The state between two iterations: what is visited is labelled, and is either expanded
      or queued. */
  ghost predicate Searching(
    rows: seq<Relation>, start: string, at: (string, nat) -> bool, maxDepth: nat,
    visited: set<string>, queue: seq<(string, nat)>, dist: map<string, nat>,
    expanded: set<string>, level: nat)
  {
    && Tests(rows, start, at)
    && Labelled(start, at, visited, dist, maxDepth)
    && QueueFrom(queue, dist, level)
    && (forall x :: x in visited <==> x in expanded || Queued(queue, x))
    && (forall x :: x in expanded ==> !Queued(queue, x))
    && NeighboursVisited(rows, expanded, visited, dist, maxDepth)
  }

  lemma QueuePop(queue: seq<(string, nat)>, dist: map<string, nat>, level: nat)
    requires queue != [] && QueueFrom(queue, dist, level)
    ensures QueueFrom(queue, dist, queue[0].1) && QueueFrom(queue[1..], dist, queue[0].1)
    ensures Queued(queue, queue[0].0) && !Queued(queue[1..], queue[0].0)
    ensures forall x :: Queued(queue, x) <==> x == queue[0].0 || Queued(queue[1..], x)
  {
    assert queue == [queue[0]] + queue[1..];
    forall x | Queued(queue, x) && x != queue[0].0
      ensures Queued(queue[1..], x)
    {
      var i :| 0 <= i < |queue| && queue[i].0 == x;
      assert queue[1..][i - 1] == queue[i];
    }
  }

  lemma QueuePush(queue: seq<(string, nat)>, dist: map<string, nat>, level: nat, next: string)
    requires QueueFrom(queue, dist, level) && next !in dist
    ensures QueueFrom(queue + [(next, level + 1)], dist[next := level + 1], level)
    ensures forall x :: Queued(queue + [(next, level + 1)], x) <==> Queued(queue, x) || x == next
  {
    var q := queue + [(next, level + 1)];
    assert q[|queue|].0 == next;
    forall x | Queued(queue, x)
      ensures Queued(q, x)
    {
      var i :| 0 <= i < |queue| && queue[i].0 == x;
      assert q[i].0 == x;
    }
  }

  /** Taking the head off the queue. */
  lemma PopOne(
    rows: seq<Relation>, start: string, at: (string, nat) -> bool, maxDepth: nat,
    visited: set<string>, queue: seq<(string, nat)>, dist: map<string, nat>,
    expanded: set<string>, level: nat)
    requires queue != []
    requires Searching(rows, start, at, maxDepth, visited, queue, dist, expanded, level)
    ensures
      var (current, depth) := queue[0];
      && current in visited && current !in expanded && dist[current] == depth && level <= depth
      && at(current, depth) && depth <= maxDepth
      && Enqueuing(start, at, maxDepth, visited, queue[1..], dist, expanded, current, depth)
  {
    QueuePop(queue, dist, level);
  }

  lemma EnqueueOne(
    start: string, at: (string, nat) -> bool, maxDepth: nat, visited: set<string>,
    queue: seq<(string, nat)>, dist: map<string, nat>, expanded: set<string>,
    current: string, depth: nat, next: string)
    requires depth < maxDepth
    requires Enqueuing(start, at, maxDepth, visited, queue, dist, expanded, current, depth)
    requires next !in visited && at(next, depth + 1)
    ensures Enqueuing(
      start, at, maxDepth, visited + {next}, queue + [(next, depth + 1)], dist[next := depth + 1],
      expanded, current, depth)
  {
    QueuePush(queue, dist, depth, next);
    var queue', dist' := queue + [(next, depth + 1)], dist[next := depth + 1];
    assert Labelled(start, at, visited + {next}, dist', maxDepth);
    assert QueueFrom(queue', dist', depth);
    forall x | x in expanded || x == current
      ensures !Queued(queue', x)
    {
      assert x in visited;
    }
  }

  lemma FarEndVisited(
    relations: seq<Relation>, i: nat, current: string, visited: set<string>, next: string)
    requires FarEndsVisited(relations, i, current, visited) && i < |relations|
    requires next == Other(relations[i], current) && next in visited
    ensures FarEndsVisited(relations, i + 1, current, visited)
  {
  }

  lemma WidenedOne(
    assets: set<string>, visited0: set<string>, dist0: map<string, nat>,
    visited: set<string>, dist: map<string, nat>, next: string, depth: nat,
    relations: seq<Relation>, i: nat, current: string)
    requires Widened(assets, visited0, dist0, visited, dist)
    requires FarEndsVisited(relations, i, current, visited)
    requires next !in visited && next in assets
    ensures Widened(assets, visited0, dist0, visited + {next}, dist[next := depth + 1])
    ensures FarEndsVisited(relations, i, current, visited + {next})
  {
    assert next !in visited0;
  }

  /** All of `current`'s neighbours have been enqueued: it counts as expanded. */
  lemma ExpandedOne(
    rows: seq<Relation>, start: string, at: (string, nat) -> bool, maxDepth: nat,
    visited0: set<string>, dist0: map<string, nat>,
    visited: set<string>, queue: seq<(string, nat)>, dist: map<string, nat>,
    expanded: set<string>, current: string, depth: nat)
    requires Tests(rows, start, at)
    requires visited0 <= visited && dist0.Keys == visited0
    requires NeighboursVisited(rows, expanded, visited0, dist0, maxDepth)
    requires Enqueuing(start, at, maxDepth, visited, queue, dist, expanded, current, depth)
    requires forall x :: x in visited0 ==> dist[x] == dist0[x]
    requires dist[current] < maxDepth ==>
      FarEndsVisited(Touching(rows, current), |Touching(rows, current)|, current, visited)
    ensures Searching(rows, start, at, maxDepth, visited, queue, dist, expanded + {current}, depth)
  {
    TouchingMembers(rows, current);
    NeighboursOfOneMore(rows, expanded, current, visited0, dist0, visited, dist, maxDepth);
  }

  lemma NeighboursOfOneMore(
    rows: seq<Relation>, expanded: set<string>, current: string, visited0: set<string>,
    dist0: map<string, nat>, visited: set<string>, dist: map<string, nat>, maxDepth: nat)
    requires visited0 <= visited && current in visited
    requires dist0.Keys == visited0 && dist.Keys == visited
    requires NeighboursVisited(rows, expanded, visited0, dist0, maxDepth)
    requires forall x :: x in visited0 ==> dist[x] == dist0[x]
    requires dist[current] < maxDepth ==>
      forall r :: r in rows && Touches(r, current) ==> Other(r, current) in visited
    ensures NeighboursVisited(rows, expanded + {current}, visited, dist, maxDepth)
  {
    forall r | r in rows
      ensures r.source in expanded + {current} && dist[r.source] < maxDepth ==> r.target in visited
      ensures r.target in expanded + {current} && dist[r.target] < maxDepth ==> r.source in visited
    {
    }
  }

  lemma ReportOne(
    rows: seq<Relation>, results: seq<GraphNode>, expanded: set<string>, dist: map<string, nat>,
    level: nat, current: string, depth: nat)
    requires Reported(rows, results, expanded, dist, level)
    requires current !in expanded && current in dist && dist[current] == depth && level <= depth
    ensures Reported(
      rows, results + [GraphNode(current, depth, Touching(rows, current))], expanded + {current},
      dist, depth)
  {
    var node := GraphNode(current, depth, Touching(rows, current));
    var more := results + [node];
    assert more[|results|] == node;
    assert forall i :: 0 <= i < |results| ==> results[i] in results;
    forall x
      ensures x in expanded + {current} <==> exists n :: n in more && n.asset == x
    {
      if x in expanded {
        var n :| n in results && n.asset == x;
        assert n in more;
      }
    }
  }

  /** Labels given later do not affect what was reported. */
  lemma ReportedStill(
    rows: seq<Relation>, results: seq<GraphNode>, expanded: set<string>,
    known: map<string, nat>, dist: map<string, nat>, level: nat)
    requires Reported(rows, results, expanded, known, level)
    requires forall x :: x in known ==> x in dist && dist[x] == known[x]
    ensures Reported(rows, results, expanded, dist, level)
  {
  }

  // ---------- The distances behind the labels ----------

  /** The row of an id that no other row has goes; the others stay, in their order. */
  lemma DeleteRemovesOne(before: seq<Relation>, r: Relation, after: seq<Relation>)
    requires forall x :: x in before || x in after ==> x.id != r.id
    ensures Filter(Except(r.id), before + [r] + after) == before + after
  {
    FilterAppend(Except(r.id), before + [r], after);
    FilterSkipsLast(Except(r.id), before, r);
    FilterAll(Except(r.id), before);
    FilterAll(Except(r.id), after);
  }

  lemma TouchingMembers(rows: seq<Relation>, asset: string)
    ensures forall r :: r in Touching(rows, asset) <==> r in rows && Touches(r, asset)
  {
    FilterMembers((r: Relation) => Touches(r, asset), rows);
  }

  lemma OutgoingMembers(rows: seq<Relation>, asset: string)
    ensures forall r :: r in Outgoing(rows, asset) <==> r in rows && r.source == asset
  {
    FilterMembers((r: Relation) => r.source == asset, rows);
  }

  /** The guard that drops assets without relations never drops a reached one. */
  lemma ReachedHasRelation(
    rows: seq<Relation>, start: string, at: (string, nat) -> bool, x: string, d: nat)
    requires Tests(rows, start, at) && at(x, d)
    ensures x == start || Touching(rows, x) != []
  {
    assert Distance(rows, start, x, d);
    WithinNoSteps(rows, start, x);
    if x != start {
      var y := StepBefore(rows, start, x, d - 1);
      TouchingMembers(rows, x);
      var r :| r in rows && Touches(r, x);
      assert r in Touching(rows, x);
    }
  }

  /** When all visited assets nearer than `d` have been expanded, everything within `d`
      steps has been visited. */
  lemma {:induction false} NearIsVisited(
    rows: seq<Relation>, start: string, at: (string, nat) -> bool, visited: set<string>,
    expanded: set<string>, dist: map<string, nat>, maxDepth: nat, d: nat, x: string)
    requires Tests(rows, start, at) && Labelled(start, at, visited, dist, maxDepth)
    requires NeighboursVisited(rows, expanded, visited, dist, maxDepth) && d <= maxDepth
    requires forall y :: y in visited && dist[y] < d ==> y in expanded
    requires WithinSteps(rows, start, x, d)
    ensures x in visited
    decreases d
  {
    if d == 0 {
      WithinNoSteps(rows, start, x);
    } else if WithinSteps(rows, start, x, d - 1) {
      NearIsVisited(rows, start, at, visited, expanded, dist, maxDepth, d - 1, x);
    } else {
      var y := StepBefore(rows, start, x, d - 1);
      NearIsVisited(rows, start, at, visited, expanded, dist, maxDepth, d - 1, y);
      assert Distance(rows, start, y, dist[y]);
      WithinEveryMore(rows, start, y, d - 1);
      assert dist[y] < d;
    }
  }

  /** What joins the queue next to an asset at `depth` is one step deeper. */
  ghost predicate OneStepFarther(
    relations: seq<Relation>, at: (string, nat) -> bool, visited: set<string>, asset: string,
    depth: nat, assets: set<string>)
  {
    forall k :: 0 <= k < |relations| ==>
      && Other(relations[k], asset) in assets
      && (Other(relations[k], asset) in visited || at(Other(relations[k], asset), depth + 1))
  }

  /** A neighbour of the queue's head that was not visited is exactly one step farther. */
  lemma NewNeighboursAreFarther(
    rows: seq<Relation>, start: string, at: (string, nat) -> bool, maxDepth: nat,
    visited: set<string>, queue: seq<(string, nat)>, dist: map<string, nat>,
    expanded: set<string>, level: nat)
    requires queue != []
    requires Searching(rows, start, at, maxDepth, visited, queue, dist, expanded, level)
    ensures
      var (current, depth) := queue[0];
      OneStepFarther(Touching(rows, current), at, visited, current, depth, Assets(rows, start))
  {
    var (current, depth) := queue[0];
    QueuePop(queue, dist, level);
    TouchingMembers(rows, current);
    var relations := Touching(rows, current);
    forall k | 0 <= k < |relations| && Other(relations[k], current) !in visited
      ensures at(Other(relations[k], current), depth + 1)
    {
      var next := Other(relations[k], current);
      assert relations[k] in relations;
      if WithinSteps(rows, start, next, depth) {
        NearIsVisited(rows, start, at, visited, expanded, dist, maxDepth, depth, next);
      }
      assert Distance(rows, start, current, depth);
      assert Edge(rows, current, next) || Edge(rows, next, current);
      WithinOneMore(rows, start, current, next, depth);
      assert Distance(rows, start, next, depth + 1);
    }
    assert forall k :: 0 <= k < |relations| ==> relations[k] in relations;
  }

  /** With the queue empty, the results are the assets within `maxDepth` steps. */
  lemma AllReported(
    rows: seq<Relation>, start: string, at: (string, nat) -> bool, maxDepth: nat,
    visited: set<string>, dist: map<string, nat>, expanded: set<string>, level: nat,
    results: seq<GraphNode>)
    requires Searching(rows, start, at, maxDepth, visited, [], dist, expanded, level)
    requires Reported(rows, results, expanded, dist, level)
    ensures forall n :: n in results ==> Distance(rows, start, n.asset, n.depth)
    ensures forall x ::
      WithinSteps(rows, start, x, maxDepth) <==> exists n :: n in results && n.asset == x
  {
    forall n | n in results
      ensures Distance(rows, start, n.asset, n.depth) && WithinSteps(rows, start, n.asset, maxDepth)
    {
      assert at(n.asset, n.depth);
      assert Distance(rows, start, n.asset, n.depth);
      WithinEveryMore(rows, start, n.asset, n.depth);
    }
    forall x | WithinSteps(rows, start, x, maxDepth)
      ensures exists n :: n in results && n.asset == x
    {
      NearIsVisited(rows, start, at, visited, expanded, dist, maxDepth, maxDepth, x);
    }
  }

  /** The assets a search from `start` can meet. */
  ghost function Assets(rows: seq<Relation>, start: string): set<string> {
    {start} + (set r | r in rows :: r.source) + (set r | r in rows :: r.target)
  }
}
