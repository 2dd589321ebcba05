/** The relation table over whole runs of service calls: it never holds a cycle. */
module RelationRuns {
  import opened Graph

  /** An insert that the cycle check lets through. */
  ghost predicate Inserts(rows: seq<Relation>, rows': seq<Relation>) {
    && |rows'| == |rows| + 1 && rows' == rows + [rows'[|rows|]]
    && !Reaches(rows, rows'[|rows|].target, rows'[|rows|].source)
  }

  /** A deletion: of one relation, of an asset's, or of none. */
  ghost predicate Shrinks(rows: seq<Relation>, rows': seq<Relation>) {
    forall r :: r in rows' ==> r in rows
  }

  /** Rows added without a check, each beside a row that joins the same two assets. */
  ghost predicate AddsBeside(rows: seq<Relation>, rows': seq<Relation>) {
    && |rows| <= |rows'| && rows'[..|rows|] == rows
    && forall k :: |rows| <= k < |rows'| ==> Edge(rows, rows'[k].source, rows'[k].target)
  }

  /** What a service call does to the relation table. */
  ghost predicate Changes(rows: seq<Relation>, rows': seq<Relation>) {
    Inserts(rows, rows') || Shrinks(rows, rows') || AddsBeside(rows, rows')
  }

  lemma ChangeKeepsAcyclic(rows: seq<Relation>, rows': seq<Relation>)
    requires Acyclic(rows) && Changes(rows, rows')
    ensures Acyclic(rows')
  {
    if Inserts(rows, rows') {
      InsertAcyclic(rows, rows'[|rows|]);
    } else {
      forall r | r in rows'
        ensures Edge(rows, r.source, r.target)
      {
        AddsNoEdge(rows, rows', r);
      }
      NoNewEdgesKeepAcyclic(rows, rows');
    }
  }

  lemma AddsNoEdge(rows: seq<Relation>, rows': seq<Relation>, r: Relation)
    requires (Shrinks(rows, rows') || AddsBeside(rows, rows')) && r in rows'
    ensures Edge(rows, r.source, r.target)
  {
    if !Shrinks(rows, rows') {
      var k :| 0 <= k < |rows'| && rows'[k] == r;
      if k < |rows| {
        assert rows'[..|rows|][k] == r;
      }
    }
  }

  ghost predicate Run(tables: seq<seq<Relation>>) {
    |tables| > 0 && forall i :: 0 <= i < |tables| - 1 ==> Changes(tables[i], tables[i + 1])
  }

  /** Whatever calls are made, in whatever order: a table that is acyclic at the start stays
      acyclic and never joins an asset to itself. */
  lemma {:induction false} EveryRunStaysAcyclic(tables: seq<seq<Relation>>, k: nat)
    requires Run(tables) && Acyclic(tables[0]) && k < |tables|
    ensures Acyclic(tables[k]) && forall r :: r in tables[k] ==> r.source != r.target
  {
    if k > 0 {
      EveryRunStaysAcyclic(tables, k - 1);
      assert Changes(tables[k - 1], tables[k - 1 + 1]);
      ChangeKeepsAcyclic(tables[k - 1], tables[k]);
    }
    NoSelfLoops(tables[k]);
  }

  lemma EmptyIsAcyclic()
    ensures Acyclic([])
  {
    forall p
      ensures !(IsPath([], p) && |p| >= 2)
    {
      assert IsPath([], p) && |p| >= 2 ==> Edge([], p[0], p[0 + 1]);
    }
  }

  /** From the empty table there is no way to a cycle. */
  lemma RunFromEmptyStaysAcyclic(tables: seq<seq<Relation>>, k: nat)
    requires Run(tables) && tables[0] == [] && k < |tables|
    ensures Acyclic(tables[k]) && forall r :: r in tables[k] ==> r.source != r.target
  {
    EmptyIsAcyclic();
    EveryRunStaysAcyclic(tables, k);
  }
}
