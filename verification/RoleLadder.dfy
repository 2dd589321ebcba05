/** Who may write has_access rows, and what that does to the seats of a workspace: callers who
    are neither platform admin nor owner cannot move anyone up or down the role ladder. */
module RoleLadder {
  import opened Outcomes
  import opened Models
  import opened Tables
  import opened Graph
  import opened Policy
  import opened Roles
  import RelationRepository

  // ---------- One write ----------

  /** A has_access write by the user whose asset is `caller`. What else the policies see of
      the caller and of the workspace is left open. */
  datatype Write =
    | Grant(principal: Principal, resource: Resource, caller: string, row: Relation)
    | Revoke(principal: Principal, resource: Resource, caller: string, row: Relation)

  /** The seats the policies are told of. A deletion requests no role. */
  function Context(rows: seq<Relation>, w: Write): Seats {
    Seats(
      Some(Seat(rows, w.caller, w.row.target)),
      Some(Seat(rows, w.row.source, w.row.target)),
      if w.Grant? then RoleText(w.row.metadata) else None)
  }

  function AfterWrite(rows: seq<Relation>, w: Write): seq<Relation> {
    if w.Grant? then rows + [w.row] else Filter(Except(w.row.id), rows)
  }

  ghost predicate UniqueIds(rows: seq<Relation>) {
    forall i, j :: 0 <= i < j < |rows| ==> rows[i].id != rows[j].id
  }

  /** The write goes through: its row is new, or there to be deleted, and the policies allow
      it, though the caller is neither platform admin nor owner of the workspace. */
  ghost predicate GoesThrough(rows: seq<Relation>, w: Write) {
    && w.row.kind == HasAccess
    && (if w.Grant? then forall r :: r in rows ==> r.id != w.row.id else w.row in rows)
    && !Admin(w.principal) && Seat(rows, w.caller, w.row.target) != OWNER
    && Allowed(w.principal, ManageMembers, w.resource, Context(rows, w))
  }

  /** Such a caller is a ws_admin, and neither the seat written nor the role asked for is
      above a plain member's. */
  lemma OnlyPlainMembersAreWritten(rows: seq<Relation>, w: Write)
    requires GoesThrough(rows, w)
    ensures Seat(rows, w.caller, w.row.target) == WS_ADMIN
    ensures !Elevated(rows, w.row.source, w.row.target)
    ensures w.Grant? ==> SeatRole(w.row) == MEMBER
  {
  }

  // ---------- Seats ----------

  predicate Elevated(rows: seq<Relation>, user: string, workspace: string) {
    Seat(rows, user, workspace) == OWNER || Seat(rows, user, workspace) == WS_ADMIN
  }

  ghost predicate SameElevatedSeats(rows: seq<Relation>, rows': seq<Relation>) {
    forall u, w :: Elevated(rows, u, w) || Elevated(rows', u, w) ==> Seat(rows', u, w) == Seat(rows, u, w)
  }

  predicate AccessOf(r: Relation, user: string, workspace: string) {
    Accesses(r, user) && r.target == workspace
  }

  /** The first row that gives the user access to the workspace. */
  function First(rows: seq<Relation>, user: string, workspace: string): Option<Relation> {
    if rows == [] then None
    else if AccessOf(rows[0], user, workspace) then Some(rows[0])
    else First(rows[1..], user, workspace)
  }

  /** A seat read off the whole table. */
  ghost function SeatOf(rows: seq<Relation>, user: string, workspace: string): string {
    if Owning(rows, user, workspace) then OWNER
    else match First(rows, user, workspace)
      case Some(r) => SeatRole(r)
      case None => NO_SEAT
  }

  lemma {:induction false} FirstIgnoresOthers(rows: seq<Relation>, user: string, workspace: string)
    ensures FirstAccess(Touching(rows, user), user, workspace) == First(rows, user, workspace)
  {
    if rows != [] {
      FirstIgnoresOthers(rows[1..], user, workspace);
      var rest := Touching(rows[1..], user);
      assert ([rows[0]] + rest)[1..] == rest;
      assert [] + rest == rest;
    }
  }

  lemma SeatIsSeatOf(rows: seq<Relation>, user: string, workspace: string)
    ensures Seat(rows, user, workspace) == SeatOf(rows, user, workspace)
  {
    FirstIgnoresOthers(rows, user, workspace);
    OwningOfTable(rows, user, workspace);
  }

  lemma {:induction false} FirstFacts(rows: seq<Relation>, user: string, workspace: string)
    ensures
      match First(rows, user, workspace)
      case Some(r) => r in rows && AccessOf(r, user, workspace)
      case None => forall r :: r in rows ==> !AccessOf(r, user, workspace)
  {
    if rows != [] {
      FirstFacts(rows[1..], user, workspace);
      assert rows == [rows[0]] + rows[1..];
    }
  }

  lemma {:induction false} FirstAppend(
    rows: seq<Relation>, row: Relation, user: string, workspace: string)
    ensures First(rows + [row], user, workspace) ==
      if First(rows, user, workspace).Some? then First(rows, user, workspace)
      else if AccessOf(row, user, workspace) then Some(row) else None
  {
    if rows == [] {
      assert [row][1..] == [] && rows + [row] == [row];
    } else {
      assert (rows + [row])[1..] == rows[1..] + [row];
      FirstAppend(rows[1..], row, user, workspace);
    }
  }

  /** Deleting a row that is not the first leaves the first. */
  lemma {:induction false} FirstFilter(
    rows: seq<Relation>, p: Relation -> bool, user: string, workspace: string)
    ensures
      var first := First(rows, user, workspace);
      first.None? || p(first.value) ==> First(Filter(p, rows), user, workspace) == first
  {
    if rows != [] {
      FirstFilter(rows[1..], p, user, workspace);
      var rest := Filter(p, rows[1..]);
      assert ([rows[0]] + rest)[1..] == rest;
      assert [] + rest == rest;
    }
  }

  // ---------- Every run keeps the ladder ----------

  ghost predicate HasWsAdmin(rows: seq<Relation>, workspace: string) {
    exists u :: Seat(rows, u, workspace) == WS_ADMIN
  }

  /** A has_access row above plain member, behind a plain member's seat. */
  predicate Hidden(rows: seq<Relation>, r: Relation) {
    r.kind == HasAccess && SeatRole(r) != MEMBER && !Elevated(rows, r.source, r.target)
  }

  /** Nothing is hidden where a ws_admin could bring it out. */
  ghost predicate Settled(rows: seq<Relation>) {
    forall r :: r in rows && Hidden(rows, r) ==> !HasWsAdmin(rows, r.target)
  }

  predicate SamePair(r: Relation, s: Relation) {
    r.kind == HasAccess && s.kind == HasAccess && r.source == s.source && r.target == s.target
  }

  ghost predicate Agreement(rows: seq<Relation>) {
    forall r, s :: r in rows && s in rows && SamePair(r, s) ==> SeatRole(r) == SeatRole(s)
  }

  /** If all has_access rows of a pair agree, nothing hides. */
  lemma AgreementSettles(rows: seq<Relation>)
    requires Agreement(rows)
    ensures Settled(rows)
  {
    forall r | r in rows && r.kind == HasAccess && SeatRole(r) != MEMBER
      ensures Elevated(rows, r.source, r.target)
    {
      AgreedIsElevated(rows, r);
    }
  }

  lemma AgreedIsElevated(rows: seq<Relation>, r: Relation)
    requires Agreement(rows) && r in rows && r.kind == HasAccess && SeatRole(r) != MEMBER
    ensures Elevated(rows, r.source, r.target)
  {
    SeatIsSeatOf(rows, r.source, r.target);
    FirstFacts(rows, r.source, r.target);
    assert AccessOf(r, r.source, r.target);
    assert SamePair(r, First(rows, r.source, r.target).value);
  }

  lemma GrantKeepsSeats(rows: seq<Relation>, row: Relation, u: string, w: string)
    requires row.kind == HasAccess && SeatRole(row) == MEMBER
    ensures Elevated(rows, u, w) || Elevated(rows + [row], u, w) ==>
      Seat(rows + [row], u, w) == Seat(rows, u, w)
  {
    SeatIsSeatOf(rows, u, w);
    SeatIsSeatOf(rows + [row], u, w);
    FirstAppend(rows, row, u, w);
    OwnershipKept(rows, rows + [row], u, w);
  }

  lemma OwnershipKept(rows: seq<Relation>, rows': seq<Relation>, u: string, w: string)
    requires forall r: Relation :: r.kind == HasInstance ==> (r in rows <==> r in rows')
    ensures Owning(rows, u, w) <==> Owning(rows', u, w)
  {
  }

  lemma UniqueById(rows: seq<Relation>, r: Relation, s: Relation)
    requires UniqueIds(rows) && r in rows && s in rows && r.id == s.id
    ensures r == s
  {
  }

  /** After the deletion, a seat comes from the same row as before, or from another row of the
      pair that was written. */
  lemma RevokeMovesFirst(rows: seq<Relation>, row: Relation, u: string, w: string)
    requires UniqueIds(rows) && row in rows && row.kind == HasAccess
    ensures
      var rows' := Filter(Except(row.id), rows);
      && (Owning(rows, u, w) <==> Owning(rows', u, w))
      && (First(rows, u, w) != Some(row) ==> First(rows', u, w) == First(rows, u, w))
      && (First(rows', u, w).Some? ==>
        First(rows', u, w).value in rows && AccessOf(First(rows', u, w).value, u, w))
  {
    var rows' := Filter(Except(row.id), rows);
    FilterMembers(Except(row.id), rows);
    forall r: Relation | r.kind == HasInstance
      ensures r in rows <==> r in rows'
    {
      if r in rows && r.id == row.id {
        UniqueById(rows, r, row);
      }
    }
    OwnershipKept(rows, rows', u, w);
    FirstFacts(rows, u, w);
    FirstFacts(rows', u, w);
    FirstFilter(rows, Except(row.id), u, w);
    if First(rows, u, w).Some? && First(rows, u, w).value.id == row.id {
      UniqueById(rows, First(rows, u, w).value, row);
    }
  }

  lemma RevokeKeepsSeats(rows: seq<Relation>, row: Relation, u: string, w: string)
    requires UniqueIds(rows) && row in rows && row.kind == HasAccess
    requires !Elevated(rows, row.source, row.target)
    requires forall r :: r in rows && AccessOf(r, row.source, row.target) ==> SeatRole(r) == MEMBER
    ensures
      var rows' := Filter(Except(row.id), rows);
      Elevated(rows, u, w) || Elevated(rows', u, w) ==> Seat(rows', u, w) == Seat(rows, u, w)
  {
    var rows' := Filter(Except(row.id), rows);
    SeatIsSeatOf(rows, u, w);
    SeatIsSeatOf(rows', u, w);
    RevokeMovesFirst(rows, row, u, w);
    FirstFacts(rows, u, w);
  }

  lemma WriteKeepsSeats(rows: seq<Relation>, w: Write)
    requires UniqueIds(rows) && Settled(rows) && GoesThrough(rows, w)
    ensures SameElevatedSeats(rows, AfterWrite(rows, w))
  {
    OnlyPlainMembersAreWritten(rows, w);
    forall r | r in rows && AccessOf(r, w.row.source, w.row.target)
      ensures SeatRole(r) == MEMBER
    {
      assert !Hidden(rows, r);
    }
    forall u, v
      ensures Elevated(rows, u, v) || Elevated(AfterWrite(rows, w), u, v) ==>
        Seat(AfterWrite(rows, w), u, v) == Seat(rows, u, v)
    {
      if w.Grant? {
        GrantKeepsSeats(rows, w.row, u, v);
      } else {
        RevokeKeepsSeats(rows, w.row, u, v);
      }
    }
  }

  lemma WriteKeepsSettled(rows: seq<Relation>, w: Write)
    requires UniqueIds(rows) && Settled(rows) && GoesThrough(rows, w)
    ensures UniqueIds(AfterWrite(rows, w)) && Settled(AfterWrite(rows, w))
  {
    var rows' := AfterWrite(rows, w);
    OnlyPlainMembersAreWritten(rows, w);
    WriteKeepsSeats(rows, w);
    FilterMembers(Except(w.row.id), rows);
    FilteredIdsUnique(Except(w.row.id), rows);
    forall r | r in rows' && Hidden(rows', r)
      ensures !HasWsAdmin(rows', r.target)
    {
      assert r in rows && Hidden(rows, r);
      NoNewWsAdmin(rows, rows', r.target);
    }
  }

  lemma NoNewWsAdmin(rows: seq<Relation>, rows': seq<Relation>, w: string)
    requires SameElevatedSeats(rows, rows')
    ensures HasWsAdmin(rows', w) ==> HasWsAdmin(rows, w)
  {
    if u :| Seat(rows', u, w) == WS_ADMIN {
      assert Elevated(rows', u, w);
      assert Seat(rows, u, w) == WS_ADMIN;
    }
  }

  lemma FilteredIdsUnique(p: Relation -> bool, rows: seq<Relation>)
    requires UniqueIds(rows)
    ensures UniqueIds(Filter(p, rows))
  {
    var id := (r: Relation) => r.id;
    assert KeysDiffer(id, rows);
    FilterKeepsKeys(p, id, rows);
    var kept := Filter(p, rows);
    assert forall i :: 0 <= i < |kept| ==> id(kept[i]) == kept[i].id;
  }

  function AfterAll(rows: seq<Relation>, writes: seq<Write>): seq<Relation>
    decreases |writes|
  {
    if writes == [] then rows else AfterAll(AfterWrite(rows, writes[0]), writes[1..])
  }

  ghost predicate AllGoThrough(rows: seq<Relation>, writes: seq<Write>)
    decreases |writes|
  {
    writes != [] ==>
      GoesThrough(rows, writes[0]) && AllGoThrough(AfterWrite(rows, writes[0]), writes[1..])
  }

  lemma {:induction false} RunKeepsSeats(rows: seq<Relation>, writes: seq<Write>)
    requires UniqueIds(rows) && Settled(rows) && AllGoThrough(rows, writes)
    ensures SameElevatedSeats(rows, AfterAll(rows, writes))
    decreases |writes|
  {
    if writes != [] {
      var next := AfterWrite(rows, writes[0]);
      WriteKeepsSeats(rows, writes[0]);
      WriteKeepsSettled(rows, writes[0]);
      RunKeepsSeats(next, writes[1..]);
      forall u, w | Elevated(rows, u, w) || Elevated(AfterAll(rows, writes), u, w)
        ensures Seat(AfterAll(rows, writes), u, w) == Seat(rows, u, w)
      {
        assert Elevated(next, u, w);
      }
    }
  }

  /** Revoking the rows in front of it brings a hidden row out. */
  lemma {:induction false} HiddenRowSurfaces(rows: seq<Relation>, r: Relation, caller: string)
    returns (writes: seq<Write>)
    requires UniqueIds(rows) && r in rows && Hidden(rows, r)
    requires Seat(rows, caller, r.target) == WS_ADMIN
    ensures AllGoThrough(rows, writes)
    ensures Elevated(AfterAll(rows, writes), r.source, r.target)
    decreases |rows|
  {
    var u, w := r.source, r.target;
    SeatIsSeatOf(rows, u, w);
    FirstFacts(rows, u, w);
    assert AccessOf(r, u, w);
    var front := First(rows, u, w).value;
    var revoke := Revoke(
      Principal("", None, {}, None), Resource(None, None, None, None, None, None), caller, front);
    var next := AfterWrite(rows, revoke);
    RevokeFacts(rows, revoke, r);
    if Elevated(next, u, w) {
      writes := [revoke];
      assert writes[1..] == [];
    } else {
      var rest := HiddenRowSurfaces(next, r, caller);
      writes := [revoke] + rest;
      assert writes[1..] == rest;
    }
  }

  /** A ws_admin may revoke a plain member's row. */
  lemma PlainRevokePasses(rows: seq<Relation>, revoke: Write)
    requires revoke.Revoke? && revoke.row in rows && revoke.row.kind == HasAccess
    requires !Admin(revoke.principal) && Seat(rows, revoke.caller, revoke.row.target) == WS_ADMIN
    requires Seat(rows, revoke.row.source, revoke.row.target) == MEMBER
    ensures GoesThrough(rows, revoke)
  {
  }

  lemma RevokeFacts(rows: seq<Relation>, revoke: Write, r: Relation)
    requires UniqueIds(rows) && r in rows && Hidden(rows, r)
    requires revoke.Revoke? && First(rows, r.source, r.target) == Some(revoke.row)
    requires Seat(rows, revoke.caller, r.target) == WS_ADMIN && !Admin(revoke.principal)
    ensures GoesThrough(rows, revoke)
    ensures
      var next := AfterWrite(rows, revoke);
      && |next| < |rows| && UniqueIds(next) && r in next
      && Seat(next, revoke.caller, r.target) == WS_ADMIN
  {
    HidesBehindMember(rows, r);
    PlainRevokePasses(rows, revoke);
    FilterMembers(Except(revoke.row.id), rows);
    FilteredIdsUnique(Except(revoke.row.id), rows);
    FilterDrops(Except(revoke.row.id), rows, revoke.row);
    if r.id == revoke.row.id {
      UniqueById(rows, r, revoke.row);
    }
    RevokeKeepsCaller(rows, revoke.row, revoke.caller, r.target);
  }

  /** What a hidden row hides behind. */
  lemma HidesBehindMember(rows: seq<Relation>, r: Relation)
    requires r in rows && Hidden(rows, r)
    ensures
      var first := First(rows, r.source, r.target);
      && first.Some? && first.value in rows && AccessOf(first.value, r.source, r.target)
      && SeatRole(first.value) == MEMBER && Seat(rows, r.source, r.target) == MEMBER
  {
    SeatIsSeatOf(rows, r.source, r.target);
    FirstFacts(rows, r.source, r.target);
    assert AccessOf(r, r.source, r.target);
  }

  /** Revoking a plain member's row leaves a ws_admin's seat. */
  lemma RevokeKeepsCaller(rows: seq<Relation>, row: Relation, caller: string, w: string)
    requires UniqueIds(rows) && row in rows && row.kind == HasAccess && SeatRole(row) == MEMBER
    requires Seat(rows, caller, w) == WS_ADMIN
    ensures Seat(Filter(Except(row.id), rows), caller, w) == WS_ADMIN
  {
    SeatIsSeatOf(rows, caller, w);
    SeatIsSeatOf(Filter(Except(row.id), rows), caller, w);
    RevokeMovesFirst(rows, row, caller, w);
  }

  lemma {:induction false} FilterDrops(p: Relation -> bool, rows: seq<Relation>, r: Relation)
    requires r in rows && !p(r)
    ensures |Filter(p, rows)| < |rows|
  {
    if r != rows[0] {
      assert rows == [rows[0]] + rows[1..];
      FilterDrops(p, rows[1..], r);
    }
  }

  lemma UnsettledBreaks(rows: seq<Relation>) returns (writes: seq<Write>)
    requires UniqueIds(rows) && !Settled(rows)
    ensures AllGoThrough(rows, writes) && !SameElevatedSeats(rows, AfterAll(rows, writes))
  {
    var r :| r in rows && Hidden(rows, r) && HasWsAdmin(rows, r.target);
    var caller :| Seat(rows, caller, r.target) == WS_ADMIN;
    writes := HiddenRowSurfaces(rows, r, caller);
    assert !Elevated(rows, r.source, r.target);
  }

  /** Runs of writes by callers who are neither admin nor owner leave the owner and ws_admin
      seats of every workspace as they were, exactly if nothing is hidden at the start. */
  lemma LadderHoldsExactlyWhenSettled(rows: seq<Relation>)
    requires UniqueIds(rows)
    ensures Settled(rows) <==>
      forall writes :: AllGoThrough(rows, writes) ==> SameElevatedSeats(rows, AfterAll(rows, writes))
  {
    if Settled(rows) {
      forall writes | AllGoThrough(rows, writes)
        ensures SameElevatedSeats(rows, AfterAll(rows, writes))
      {
        RunKeepsSeats(rows, writes);
      }
    } else {
      var writes := UnsettledBreaks(rows);
    }
  }

  // ---------- A table with a hidden row ----------

  function AccessRow(id: string, user: string, workspace: string, role: string): Relation {
    Relation(id, user, workspace, HasAccess, map["role" := Text(role)])
  }

  /** An owner, a ws_admin, and a user with a member's row in front of a ws_admin's. */
  predicate HidingTable(rows: seq<Relation>) {
    && |rows| == 4
    && rows[0] == Relation("1", "owner", "w", HasInstance, map[])
    && rows[1] == AccessRow("2", "admin", "w", WS_ADMIN)
    && rows[2] == AccessRow("3", "user", "w", MEMBER)
    && rows[3] == AccessRow("4", "user", "w", WS_ADMIN)
  }

  lemma SeatsOfHidingTable(rows: seq<Relation>)
    requires HidingTable(rows)
    ensures Seat(rows, "user", "w") == MEMBER && Seat(rows, "admin", "w") == WS_ADMIN
  {
    SeatIsSeatOf(rows, "user", "w");
    SeatIsSeatOf(rows, "admin", "w");
    assert rows[1..][1..] == rows[2..];
    assert First(rows[2..], "user", "w") == Some(rows[2]);
    assert First(rows[1..], "user", "w") == Some(rows[2]);
    assert First(rows[1..], "admin", "w") == Some(rows[1]);
  }

  lemma RevokedLeaves(rows: seq<Relation>)
    requires HidingTable(rows)
    ensures Filter(Except("3"), rows) == [rows[0], rows[1], rows[3]]
  {
    var p := Except("3");
    assert rows[1..][1..] == rows[2..] && rows[2..][1..] == rows[3..] && rows[3..][1..] == [];
    assert Filter(p, rows[3..]) == [rows[3]];
    assert Filter(p, rows[2..]) == [rows[3]];
    assert Filter(p, rows[1..]) == [rows[1], rows[3]];
  }

  lemma SeatAfterRevoke(rows: seq<Relation>, left: seq<Relation>)
    requires HidingTable(rows) && left == Filter(Except("3"), rows)
    ensures Seat(left, "user", "w") == WS_ADMIN
  {
    RevokedLeaves(rows);
    assert left[1..] == [rows[1], rows[3]] && left[1..][1..] == [rows[3]];
    SeatIsSeatOf(left, "user", "w");
    assert First(left[1..], "user", "w") == Some(rows[3]);
  }

  lemma HidingIsUnsettled(rows: seq<Relation>, hidden: Relation)
    requires hidden in rows && hidden == AccessRow("4", "user", "w", WS_ADMIN)
    requires Seat(rows, "user", "w") == MEMBER && Seat(rows, "admin", "w") == WS_ADMIN
    ensures !Settled(rows)
  {
    assert Hidden(rows, hidden) && HasWsAdmin(rows, hidden.target);
  }

  lemma HidingHasUniqueIds(rows: seq<Relation>)
    requires HidingTable(rows)
    ensures UniqueIds(rows)
  {
    assert rows[0].id[0] == '1' && rows[1].id[0] == '2' && rows[2].id[0] == '3' && rows[3].id[0] == '4';
  }

  /** The condition can fail: here the ws_admin, by revoking the member's row, makes the user a
      ws_admin. */
  lemma UnsettledExists(rows: seq<Relation>, revoke: Write)
    requires HidingTable(rows) && revoke.Revoke? && !Admin(revoke.principal)
    requires revoke.caller == "admin" && revoke.row == rows[2]
    ensures UniqueIds(rows) && !Settled(rows)
    ensures Seat(rows, "user", "w") == MEMBER && GoesThrough(rows, revoke)
    ensures Seat(AfterWrite(rows, revoke), "user", "w") == WS_ADMIN
  {
    SeatsOfHidingTable(rows);
    HidingIsUnsettled(rows, rows[3]);
    HidingHasUniqueIds(rows);
    SeatAfterRevoke(rows, Filter(Except("3"), rows));
    PlainRevokePasses(rows, revoke);
  }
}
