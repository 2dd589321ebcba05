/** The relation rows and the directed graph they form: paths, reachability, cycles, and
    undirected distance. */
module Graph {
  import opened Models
  import opened Tables

  datatype RelationType =
    | Contains | References | RelatedTo | DependsOn | Supersedes | Complements
    | HasInstance | HasAgent | HasAccess

  datatype Relation = Relation(
    id: string, source: string, target: string, kind: RelationType, metadata: map<string, Json>)

  predicate Touches(r: Relation, asset: string) {
    r.source == asset || r.target == asset
  }

  function Touching(rows: seq<Relation>, asset: string): seq<Relation> {
    Filter((r: Relation) => Touches(r, asset), rows)
  }

  function Except(id: string): Relation -> bool {
    (r: Relation) => r.id != id
  }

  function Apart(asset: string): Relation -> bool {
    (r: Relation) => !Touches(r, asset)
  }

  function Outgoing(rows: seq<Relation>, asset: string): seq<Relation> {
    Filter((r: Relation) => r.source == asset, rows)
  }

  // ---------- Directed paths ----------

  ghost predicate Edge(rows: seq<Relation>, x: string, y: string) {
    exists r :: r in rows && r.source == x && r.target == y
  }

  ghost predicate IsPath(rows: seq<Relation>, p: seq<string>) {
    |p| > 0 && forall i :: 0 <= i < |p| - 1 ==> Edge(rows, p[i], p[i + 1])
  }

  ghost predicate PathBetween(rows: seq<Relation>, p: seq<string>, x: string, y: string) {
    IsPath(rows, p) && p[0] == x && p[|p| - 1] == y
  }

  /** Zero or more relations lead from `x` to `y`, whatever their types. */
  ghost predicate Reaches(rows: seq<Relation>, x: string, y: string) {
    exists p :: PathBetween(rows, p, x, y)
  }

  /** No path of one or more relations returns to where it began; in particular no
      relation joins an asset to itself. */
  ghost predicate Acyclic(rows: seq<Relation>) {
    forall p :: IsPath(rows, p) && |p| >= 2 ==> p[0] != p[|p| - 1]
  }

  lemma ReachesSelf(rows: seq<Relation>, x: string)
    ensures Reaches(rows, x, x)
  {
    assert PathBetween(rows, [x], x, x);
  }

  lemma ReachesThenEdge(rows: seq<Relation>, x: string, y: string, z: string)
    requires Reaches(rows, x, y) && Edge(rows, y, z)
    ensures Reaches(rows, x, z)
  {
    var p :| PathBetween(rows, p, x, y);
    assert PathBetween(rows, p + [z], x, z);
  }

  /** `reach` is the test "is reachable from `x`", for loops that need the facts about
      reachability but not the paths. */
  ghost predicate TestsReach(rows: seq<Relation>, x: string, reach: string -> bool) {
    && (forall y {:trigger Reaches(rows, x, y)} :: reach(y) <==> Reaches(rows, x, y))
    && (forall r :: r in rows && reach(r.source) ==> reach(r.target))
  }

  lemma ReachTest(rows: seq<Relation>, x: string) returns (reach: string -> bool)
    ensures TestsReach(rows, x, reach) && reach(x)
  {
    reach := y => Reaches(rows, x, y);
    ReachesSelf(rows, x);
    forall r | r in rows && reach(r.source)
      ensures reach(r.target)
    {
      assert Edge(rows, r.source, r.target);
      ReachesThenEdge(rows, x, r.source, r.target);
    }
  }

  ghost predicate ClosedUnderEdges(rows: seq<Relation>, s: set<string>) {
    forall r :: r in rows && r.source in s ==> r.target in s
  }

  lemma ClosedSetHoldsReachable(rows: seq<Relation>, s: set<string>, x: string)
    requires ClosedUnderEdges(rows, s) && x in s
    ensures forall y :: Reaches(rows, x, y) ==> y in s
  {
    forall y | Reaches(rows, x, y)
      ensures y in s
    {
      var p :| PathBetween(rows, p, x, y);
      PathStaysIn(rows, s, p, |p| - 1);
    }
  }

  lemma {:induction false} PathStaysIn(rows: seq<Relation>, s: set<string>, p: seq<string>, k: nat)
    requires ClosedUnderEdges(rows, s) && IsPath(rows, p) && p[0] in s && k < |p|
    ensures p[k] in s
  {
    if k > 0 {
      PathStaysIn(rows, s, p, k - 1);
      assert Edge(rows, p[k - 1], p[k - 1 + 1]);
    }
  }

  lemma PathSlice(rows: seq<Relation>, p: seq<string>, i: nat, j: nat)
    requires IsPath(rows, p) && i < j <= |p|
    ensures IsPath(rows, p[i..j])
  {
    var q := p[i..j];
    forall k | 0 <= k < |q| - 1
      ensures Edge(rows, q[k], q[k + 1])
    {
      assert Edge(rows, p[i + k], p[i + k + 1]);
    }
  }

  // ---------- What keeps the graph acyclic ----------

  /** Deleting rows, or adding rows parallel to existing ones, makes no cycle. */
  lemma NoNewEdgesKeepAcyclic(rows: seq<Relation>, rows': seq<Relation>)
    requires Acyclic(rows)
    requires forall r :: r in rows' ==> Edge(rows, r.source, r.target)
    ensures Acyclic(rows')
  {
    forall p | IsPath(rows', p) && |p| >= 2
      ensures p[0] != p[|p| - 1]
    {
      forall i | 0 <= i < |p| - 1
        ensures Edge(rows, p[i], p[i + 1])
      {
        assert Edge(rows', p[i], p[i + 1]);
      }
      assert IsPath(rows, p);
    }
  }

  /** In the table extended by `e`, a path from `e`'s target to `e`'s source already
      existed before: its part up to the first use of `e` ends at `e`'s source. */
  lemma PathAvoidingNew(rows: seq<Relation>, e: Relation, p: seq<string>)
    requires PathBetween(rows + [e], p, e.target, e.source)
    ensures Reaches(rows, e.target, e.source)
  {
    var j := FirstNewEdge(rows, e, p, 0);
    assert PathBetween(rows, p[..j + 1], e.target, e.source);
  }

  /** The first position from which the path cannot go on along old edges. */
  lemma {:induction false} FirstNewEdge(rows: seq<Relation>, e: Relation, p: seq<string>, from: nat)
    returns (j: nat)
    requires PathBetween(rows + [e], p, e.target, e.source) && from < |p|
    requires forall i :: 0 <= i < from ==> Edge(rows, p[i], p[i + 1])
    ensures j < |p| && p[j] == e.source
    ensures forall i :: 0 <= i < j ==> Edge(rows, p[i], p[i + 1])
    decreases |p| - from
  {
    if from == |p| - 1 {
      j := from;
    } else if Edge(rows, p[from], p[from + 1]) {
      j := FirstNewEdge(rows, e, p, from + 1);
    } else {
      assert Edge(rows + [e], p[from], p[from + 1]);
      j := from;
    }
  }

  /** Adding `e` makes a cycle exactly if its source was reachable from its target. */
  lemma InsertAcyclic(rows: seq<Relation>, e: Relation)
    requires Acyclic(rows)
    ensures Acyclic(rows + [e]) <==> !Reaches(rows, e.target, e.source)
  {
    if !Reaches(rows, e.target, e.source) {
      forall p | IsPath(rows + [e], p) && |p| >= 2
        ensures p[0] != p[|p| - 1]
      {
        if p[0] == p[|p| - 1] {
          CycleUsesNew(rows, e, p);
        }
      }
    } else {
      var p :| PathBetween(rows, p, e.target, e.source);
      var q := [e.source] + p;
      assert e in rows + [e];
      forall i | 0 <= i < |q| - 1
        ensures Edge(rows + [e], q[i], q[i + 1])
      {
        if i > 0 {
          assert Edge(rows, p[i - 1], p[i - 1 + 1]);
        }
      }
      assert IsPath(rows + [e], q);
    }
  }

  lemma CycleUsesNew(rows: seq<Relation>, e: Relation, p: seq<string>)
    requires Acyclic(rows)
    requires IsPath(rows + [e], p) && |p| >= 2 && p[0] == p[|p| - 1]
    ensures Reaches(rows, e.target, e.source)
  {
    assert !IsPath(rows, p);
    var i :| 0 <= i < |p| - 1 && !Edge(rows, p[i], p[i + 1]);
    assert Edge(rows + [e], p[i], p[i + 1]);
    assert p[i] == e.source && p[i + 1] == e.target;
    var q := OnceAround(rows + [e], p, i);
    PathAvoidingNew(rows, e, q);
  }

  /** From just after an edge of a cycle, round to just before it. */
  lemma OnceAround(rows: seq<Relation>, p: seq<string>, i: nat) returns (q: seq<string>)
    requires IsPath(rows, p) && i + 1 < |p| && p[0] == p[|p| - 1]
    ensures PathBetween(rows, q, p[i + 1], p[i])
  {
    PathSlice(rows, p, i + 1, |p|);
    PathSlice(rows, p, 0, i + 1);
    q := JoinPaths(rows, p[i + 1..|p|], p[0..i + 1], p[i + 1], p[0], p[i]);
  }

  lemma JoinPaths(
    rows: seq<Relation>, p: seq<string>, q: seq<string>, x: string, y: string, z: string)
    returns (joined: seq<string>)
    requires PathBetween(rows, p, x, y) && PathBetween(rows, q, y, z)
    ensures PathBetween(rows, joined, x, z)
  {
    joined := p + q[1..];
    forall k | 0 <= k < |joined| - 1
      ensures Edge(rows, joined[k], joined[k + 1])
    {
      if k < |p| - 1 {
        assert Edge(rows, p[k], p[k + 1]);
      } else {
        var m := k - (|p| - 1);
        assert joined[k] == q[m];
        assert Edge(rows, q[m], q[m + 1]);
      }
    }
  }

  lemma NoSelfLoops(rows: seq<Relation>)
    requires Acyclic(rows)
    ensures forall r :: r in rows ==> r.source != r.target
  {
    forall r | r in rows
      ensures r.source != r.target
    {
      assert Edge(rows, r.source, r.target);
      assert IsPath(rows, [r.source, r.target]);
    }
  }

  // ---------- Undirected distance ----------

  ghost predicate Adjacent(rows: seq<Relation>, x: string, y: string) {
    Edge(rows, x, y) || Edge(rows, y, x)
  }

  ghost predicate IsWalk(rows: seq<Relation>, p: seq<string>, x: string, y: string) {
    && |p| > 0 && p[0] == x && p[|p| - 1] == y
    && forall i :: 0 <= i < |p| - 1 ==> Adjacent(rows, p[i], p[i + 1])
  }

  /** At most `d` relations, followed in either direction, join `x` to `y`. */
  ghost predicate WithinSteps(rows: seq<Relation>, x: string, y: string, d: nat) {
    exists p :: IsWalk(rows, p, x, y) && |p| <= d + 1
  }

  /** `d` is the length of a shortest undirected path from `x` to `y`. */
  ghost predicate Distance(rows: seq<Relation>, x: string, y: string, d: nat) {
    WithinSteps(rows, x, y, d) && (d > 0 ==> !WithinSteps(rows, x, y, d - 1))
  }

  lemma WithinNoSteps(rows: seq<Relation>, x: string, y: string)
    ensures WithinSteps(rows, x, y, 0) <==> x == y
  {
    if x == y {
      assert IsWalk(rows, [x], x, y);
    }
  }

  lemma WithinOneMore(rows: seq<Relation>, x: string, y: string, z: string, d: nat)
    requires WithinSteps(rows, x, y, d) && Adjacent(rows, y, z)
    ensures WithinSteps(rows, x, z, d + 1)
  {
    var p :| IsWalk(rows, p, x, y) && |p| <= d + 1;
    assert IsWalk(rows, p + [z], x, z);
  }

  /** The asset before last on a shortest way. */
  lemma StepBefore(rows: seq<Relation>, x: string, z: string, d: nat) returns (y: string)
    requires WithinSteps(rows, x, z, d + 1) && !WithinSteps(rows, x, z, d)
    ensures WithinSteps(rows, x, y, d) && Adjacent(rows, y, z)
  {
    var p :| IsWalk(rows, p, x, z) && |p| <= d + 2;
    y := p[|p| - 2];
    assert Adjacent(rows, p[|p| - 2], p[|p| - 2 + 1]);
    assert IsWalk(rows, p[..|p| - 1], x, y);
  }

  lemma WithinMore(rows: seq<Relation>, x: string, y: string, d: nat, e: nat)
    requires WithinSteps(rows, x, y, d) && d <= e
    ensures WithinSteps(rows, x, y, e)
  {
    var p :| IsWalk(rows, p, x, y) && |p| <= d + 1;
  }

  lemma WithinEveryMore(rows: seq<Relation>, x: string, y: string, d: nat)
    requires WithinSteps(rows, x, y, d)
    ensures forall e: nat :: e >= d ==> WithinSteps(rows, x, y, e)
  {
    forall e: nat | e >= d
      ensures WithinSteps(rows, x, y, e)
    {
      WithinMore(rows, x, y, d, e);
    }
  }
}
