/** Workspace seats: how they are read from the relation rows, by the two resolvers of the
    service, and the backfill that writes owner rows. */
module Roles {
  import opened Outcomes
  import opened Models
  import opened Rfc3339
  import opened Tables
  import opened Graph
  import AssetRepository
  import Ids
  import RelationRepository
  import RelationRuns
  import opened Pagination

  const OWNER := "owner"
  const WS_ADMIN := "ws_admin"
  const MEMBER := "member"
  const NO_SEAT := "none"
  const DEFAULT_GLOBAL_ROLE := "user"

  /** Legacy "admin" reads as ws_admin; anything missing or unknown as member. */
  function NormalizeMembershipRole(raw: Option<string>): string {
    if raw == Some("owner") then OWNER
    else if raw == Some("ws_admin") || raw == Some("admin") then WS_ADMIN
    else MEMBER
  }

  /** The `role` metadata of a row, if it is a string. */
  function RoleText(metadata: map<string, Json>): Option<string> {
    if "role" in metadata && metadata["role"].Text? then Some(metadata["role"].text) else None
  }

  function SeatRole(r: Relation): string {
    NormalizeMembershipRole(RoleText(r.metadata))
  }

  datatype MembershipRow = MembershipRow(workspace: string, role: string)

  datatype RoleAnswer = RoleAnswer(sub: string, globalRole: string, membership: seq<MembershipRow>)

  // ---------- Resolving by sub ----------

  predicate Owns(r: Relation, user: string) {
    r.source == user && r.kind == HasInstance
  }

  predicate Accesses(r: Relation, user: string) {
    r.source == user && r.kind == HasAccess
  }

  function OwnerRows(relations: seq<Relation>, user: string): seq<MembershipRow> {
    if relations == [] then []
    else
      var rest := OwnerRows(relations[1..], user);
      if Owns(relations[0], user) then [MembershipRow(relations[0].target, OWNER)] + rest else rest
  }

  function Owned(relations: seq<Relation>, user: string): set<string> {
    set r | r in relations && Owns(r, user) :: r.target
  }

  /** The first has_access row of each workspace not claimed already. */
  function AccessRows(relations: seq<Relation>, user: string, claimed: set<string>)
    : seq<MembershipRow>
  {
    if relations == [] then []
    else if Accesses(relations[0], user) && relations[0].target !in claimed then
      [MembershipRow(relations[0].target, SeatRole(relations[0]))]
        + AccessRows(relations[1..], user, claimed + {relations[0].target})
    else AccessRows(relations[1..], user, claimed)
  }

  function Memberships(relations: seq<Relation>, user: string): seq<MembershipRow> {
    OwnerRows(relations, user) + AccessRows(relations, user, Owned(relations, user))
  }

  /** The principal's asset: the newest live one tagged with the sub, or else the live one
      whose id is the sub. */
  function Principal(assets: seq<AssetRow>, fts: AssetRepository.FullText, sub: string)
    : Option<AssetRow>
  {
    var tagged := AssetRepository.Answer(assets, AssetRepository.SEARCH_SCAN,
      AssetRepository.Wanted(fts, AssetRepository.Query(None, [("sub", sub)])));
    if tagged != [] then Some(tagged[0]) else AssetRepository.FindLive(assets, sub)
  }

  /** With ids unique: the principal's asset read off the rows. */
  lemma PrincipalInBrief(assets: seq<AssetRow>, fts: AssetRepository.FullText, sub: string)
    requires UniqueIds(assets)
    ensures
      match Principal(assets, fts, sub)
      case Some(p) => StandsFor(assets, sub, p)
      case None => NoneTagged(assets, "sub", sub) && forall r :: r in assets && r.id == sub ==> !r.Live()
  {
    NewestTagged(assets, fts, "sub", sub);
    AssetRepository.FindLiveSome(assets, sub);
  }

  /** The newest of the live assets tagged with the sub, or, if none is, the live one with this
      id. */
  ghost predicate StandsFor(assets: seq<AssetRow>, sub: string, p: AssetRow) {
    || IsNewest(assets, "sub", sub, p)
    || (NoneTagged(assets, "sub", sub) && p in assets && p.Live() && p.id == sub)
  }

  lemma StandsForOne(assets: seq<AssetRow>, sub: string, p: AssetRow, r: AssetRow)
    requires UniqueIds(assets) && StandsFor(assets, sub, p) && StandsFor(assets, sub, r)
    ensures p == r
  {
    if IsNewest(assets, "sub", sub, p) && IsNewest(assets, "sub", sub, r) {
      NewestIsUnique(assets, "sub", sub, p, r);
    } else {
      AssetRepository.SameIdSameRow(assets, p, r);
    }
  }

  method FindPrincipal(assets: AssetRepository.Repository, sub: string, now: Instant)
    returns (found: Option<AssetRow>)
    ensures found == Principal(assets.rows, assets.fts, sub)
    ensures UniqueIds(assets.rows) ==>
      match found
      case Some(p) => StandsFor(assets.rows, sub, p)
      case None =>
        && NoneTagged(assets.rows, "sub", sub)
        && forall r :: r in assets.rows && r.id == sub ==> !r.Live()
  {
    var q := AssetRepository.Query(None, [("sub", sub)]);
    var page, _ := assets.Search(q, 1, None, now);
    FirstPageStartsAnswer(assets.rows, AssetRepository.Wanted(assets.fts, q), now);
    if UniqueIds(assets.rows) {
      PrincipalInBrief(assets.rows, assets.fts, sub);
    }
    if page != [] {
      found := Some(page[0]);
    } else {
      found := assets.GetById(sub);
    }
  }

  lemma FirstPageStartsAnswer(rows: seq<AssetRow>, wanted: AssetRow -> bool, now: Instant)
    ensures
      var page := AssetRepository.Page(rows, AssetRepository.SEARCH_SCAN, wanted, 1, None, now).0;
      var all := AssetRepository.Answer(rows, AssetRepository.SEARCH_SCAN, wanted);
      page == Take(1, all)
  {
    var past := (r: AssetRow) =>
      wanted(r) && AssetRepository.PastCursor(AssetRepository.SEARCH_SCAN, None, r);
    FilterAgrees(past, wanted, rows);
  }

  /** Both role families in one lookup; a sub nobody has gets the least of each. */
  method Resolve(
    assets: AssetRepository.Repository, relations: RelationRepository.Repository, sub: string,
    now: Instant)
    returns (answer: Result<RoleAnswer>)
    ensures sub == "" ==> answer == Err(BadRequest)
    ensures sub != "" ==> answer.Ok? && answer.value.sub == sub
    ensures sub != "" ==>
      match Principal(assets.rows, assets.fts, sub)
      case None => answer.value.globalRole == DEFAULT_GLOBAL_ROLE && answer.value.membership == []
      case Some(p) =>
        && answer.value.globalRole == FirstTag(p.tags, "global_role").GetOr(DEFAULT_GLOBAL_ROLE)
        && answer.value.membership == Memberships(Touching(relations.rows, p.id), p.id)
        && ListsWorkspaces(relations.rows, p.id, answer.value.membership)
        && (forall m :: m in answer.value.membership ==>
          RoleReads(relations.rows, p.id, m.workspace, m.role))
  {
    if sub == "" {
      return Err(BadRequest);
    }
    var principal := FindPrincipal(assets, sub, now);
    if principal.None? {
      return Ok(RoleAnswer(sub, DEFAULT_GLOBAL_ROLE, []));
    }
    var user := principal.value.id;
    var found := relations.GetAssetRelations(user);
    var membership := MembershipPasses(found, user);
    MembershipsInBrief(relations.rows, user);
    answer := Ok(
      RoleAnswer(sub, FirstTag(principal.value.tags, "global_role").GetOr(DEFAULT_GLOBAL_ROLE), membership));
  }

  /** The two passes of the resolver over the principal's relations. */
  method MembershipPasses(relations: seq<Relation>, user: string)
    returns (membership: seq<MembershipRow>)
    ensures membership == Memberships(relations, user)
  {
    var owners, claimed := OwnerPass(relations, user);
    membership := owners;
    for i := 0 to |relations|
      invariant membership + AccessRows(relations[i..], user, claimed) == Memberships(relations, user)
    {
      var r := relations[i];
      assert relations[i..][1..] == relations[i + 1..];
      if Accesses(r, user) && r.target !in claimed {
        claimed := claimed + {r.target};
        membership := membership + [MembershipRow(r.target, SeatRole(r))];
      }
    }
  }

  method OwnerPass(relations: seq<Relation>, user: string)
    returns (owners: seq<MembershipRow>, claimed: set<string>)
    ensures owners == OwnerRows(relations, user) && claimed == Owned(relations, user)
  {
    owners, claimed := [], {};
    for i := 0 to |relations|
      invariant owners + OwnerRows(relations[i..], user) == OwnerRows(relations, user)
      invariant claimed == Owned(relations[..i], user)
    {
      var r := relations[i];
      assert relations[i..][1..] == relations[i + 1..];
      assert relations[..i + 1] == relations[..i] + [r];
      if Owns(r, user) {
        claimed := claimed + {r.target};
        owners := owners + [MembershipRow(r.target, OWNER)];
      }
    }
    assert relations[..|relations|] == relations;
  }

  /** The role of the first membership row for a workspace. */
  function SeatIn(membership: seq<MembershipRow>, workspace: string): string {
    if membership == [] then NO_SEAT
    else if membership[0].workspace == workspace then membership[0].role
    else SeatIn(membership[1..], workspace)
  }

  // ---------- Resolving by asset ----------

  function FirstAccess(relations: seq<Relation>, user: string, workspace: string): Option<Relation> {
    if relations == [] then None
    else if Accesses(relations[0], user) && relations[0].target == workspace then Some(relations[0])
    else FirstAccess(relations[1..], user, workspace)
  }

  /** The seat read from an asset's relations: ownership first, else the first has_access row. */
  function SeatFrom(relations: seq<Relation>, user: string, workspace: string): string {
    if exists r :: r in relations && Owns(r, user) && r.target == workspace then OWNER
    else match FirstAccess(relations, user, workspace)
      case Some(r) => SeatRole(r)
      case None => NO_SEAT
  }

  /** The seat of an asset on a workspace. */
  function Seat(rows: seq<Relation>, user: string, workspace: string): string {
    SeatFrom(Touching(rows, user), user, workspace)
  }

  // ---------- The two resolvers agree ----------

  ghost predicate Lists(m: seq<MembershipRow>, w: string) {
    exists row :: row in m && row.workspace == w
  }

  lemma {:induction false} SeatInAppend(m: seq<MembershipRow>, n: seq<MembershipRow>, w: string)
    ensures SeatIn(m + n, w) == if Lists(m, w) then SeatIn(m, w) else SeatIn(n, w)
  {
    if m == [] {
      assert m + n == n;
    } else {
      assert (m + n)[1..] == m[1..] + n;
      assert m == [m[0]] + m[1..];
      SeatInAppend(m[1..], n, w);
    }
  }

  lemma {:induction false} OwnerRowsSeat(relations: seq<Relation>, user: string, w: string)
    ensures Lists(OwnerRows(relations, user), w) <==> w in Owned(relations, user)
    ensures w in Owned(relations, user) ==> SeatIn(OwnerRows(relations, user), w) == OWNER
  {
    if relations != [] {
      var rest := relations[1..];
      assert relations == [relations[0]] + rest;
      OwnerRowsSeat(rest, user, w);
      OwnedOneMore(relations, user);
      if Owns(relations[0], user) {
        var row, tail := MembershipRow(relations[0].target, OWNER), OwnerRows(rest, user);
        assert ([row] + tail)[1..] == tail;
        if Lists(tail, w) {
          var listed :| listed in tail && listed.workspace == w;
          assert listed in [row] + tail;
        }
        assert row in [row] + tail;
      }
    }
  }

  lemma OwnedOneMore(relations: seq<Relation>, user: string)
    requires relations != []
    ensures Owned(relations, user) == Owned(relations[1..], user)
      + (if Owns(relations[0], user) then {relations[0].target} else {})
  {
    assert relations == [relations[0]] + relations[1..];
  }

  lemma {:induction false} AccessRowsSeat(
    relations: seq<Relation>, user: string, claimed: set<string>, w: string)
    requires w !in claimed
    ensures SeatIn(AccessRows(relations, user, claimed), w) ==
      match FirstAccess(relations, user, w) case Some(r) => SeatRole(r) case None => NO_SEAT
  {
    if relations != [] {
      var r := relations[0];
      if Accesses(r, user) && r.target !in claimed {
        var rest := AccessRows(relations[1..], user, claimed + {r.target});
        assert ([MembershipRow(r.target, SeatRole(r))] + rest)[1..] == rest;
        if r.target != w {
          AccessRowsSeat(relations[1..], user, claimed + {r.target}, w);
        }
      } else {
        AccessRowsSeat(relations[1..], user, claimed, w);
      }
    }
  }

  /** The membership list of the sub-keyed resolver gives every workspace the seat that the
      asset-keyed resolver reads from the same rows. */
  lemma ResolversAgree(rows: seq<Relation>, user: string, w: string)
    ensures SeatIn(Memberships(Touching(rows, user), user), w) == Seat(rows, user, w)
  {
    var relations := Touching(rows, user);
    var owners, access := OwnerRows(relations, user), AccessRows(relations, user, Owned(relations, user));
    SeatInAppend(owners, access, w);
    OwnerRowsSeat(relations, user, w);
    assert w in Owned(relations, user) <==>
      exists r :: r in relations && Owns(r, user) && r.target == w;
    if w !in Owned(relations, user) {
      AccessRowsSeat(relations, user, Owned(relations, user), w);
    }
  }

  // ---------- What a seat is read from ----------

  ghost predicate Owning(rows: seq<Relation>, user: string, workspace: string) {
    exists r :: r in rows && r.source == user && r.target == workspace && r.kind == HasInstance
  }

  ghost predicate Accessing(rows: seq<Relation>, user: string, workspace: string) {
    exists r :: r in rows && r.source == user && r.target == workspace && r.kind == HasAccess
  }

  /** The first has_access row from the user to the workspace is the `k`-th of the table. */
  ghost predicate FirstAccessAt(rows: seq<Relation>, user: string, workspace: string, k: nat) {
    && k < |rows|
    && rows[k].source == user && rows[k].target == workspace && rows[k].kind == HasAccess
    && forall j :: 0 <= j < k ==>
      !(rows[j].source == user && rows[j].target == workspace && rows[j].kind == HasAccess)
  }

  /** The text that row has for the role. */
  ghost predicate FirstSays(rows: seq<Relation>, user: string, workspace: string, role: string) {
    exists k: nat :: FirstAccessAt(rows, user, workspace, k)
      && "role" in rows[k].metadata && rows[k].metadata["role"] == Text(role)
  }

  /** The role of a pair as the table has it: owner by any has_instance row, else what the
      first has_access row says, where "admin" is an older word for ws_admin and anything but
      the two elevated roles makes a member. */
  ghost predicate RoleReads(rows: seq<Relation>, user: string, workspace: string, role: string) {
    && (role == "owner" <==> Owning(rows, user, workspace) || FirstSays(rows, user, workspace, "owner"))
    && (role == "ws_admin" <==>
      && !Owning(rows, user, workspace)
      && (FirstSays(rows, user, workspace, "ws_admin") || FirstSays(rows, user, workspace, "admin")))
    && (role == "none" <==> !Owning(rows, user, workspace) && !Accessing(rows, user, workspace))
    && (role == "owner" || role == "ws_admin" || role == "member" || role == "none")
  }

  /** The list has the workspaces that the user owns or has access to, each of the latter
      once. */
  ghost predicate ListsWorkspaces(rows: seq<Relation>, user: string, membership: seq<MembershipRow>) {
    && (forall w :: Lists(membership, w) <==> Owning(rows, user, w) || Accessing(rows, user, w))
    && (forall i, j :: 0 <= i < j < |membership| && membership[i].workspace == membership[j].workspace ==>
      Owning(rows, user, membership[i].workspace))
  }

  lemma {:induction false} FirstAccessOfTable(rows: seq<Relation>, user: string, workspace: string)
    ensures
      match FirstAccess(Touching(rows, user), user, workspace)
      case Some(r) => exists k: nat :: FirstAccessAt(rows, user, workspace, k) && rows[k] == r
      case None => !Accessing(rows, user, workspace)
  {
    if rows != [] {
      var rest := rows[1..];
      FirstAccessOfTable(rest, user, workspace);
      assert rows == [rows[0]] + rest;
      var found := FirstAccess(Touching(rest, user), user, workspace);
      assert ([rows[0]] + Touching(rest, user))[1..] == Touching(rest, user);
      assert [] + Touching(rest, user) == Touching(rest, user);
      if Accesses(rows[0], user) && rows[0].target == workspace {
        assert FirstAccessAt(rows, user, workspace, 0);
      } else if found.Some? {
        var k: nat :| FirstAccessAt(rest, user, workspace, k) && rest[k] == found.value;
        assert forall j :: 1 <= j < |rows| ==> rows[j] == rest[j - 1];
        assert FirstAccessAt(rows, user, workspace, k + 1);
      }
    }
  }

  lemma OwningOfTable(rows: seq<Relation>, user: string, workspace: string)
    ensures Owning(rows, user, workspace) <==> workspace in Owned(Touching(rows, user), user)
  {
    RelationRepository.TouchingMembers(rows, user);
    if Owning(rows, user, workspace) {
      var r :| r in rows && r.source == user && r.target == workspace && r.kind == HasInstance;
      assert r in Touching(rows, user) && Owns(r, user);
    }
  }

  /** What the first has_access row says decides the role of a pair that is not owned. */
  lemma FirstRowDecides(rows: seq<Relation>, user: string, workspace: string, role: string)
    requires !Owning(rows, user, workspace)
    requires role ==
      match FirstAccess(Touching(rows, user), user, workspace)
      case Some(r) => SeatRole(r)
      case None => NO_SEAT
    ensures RoleReads(rows, user, workspace, role)
  {
    FirstAccessOfTable(rows, user, workspace);
    var first := FirstAccess(Touching(rows, user), user, workspace);
    if first.Some? {
      var k: nat :| FirstAccessAt(rows, user, workspace, k) && rows[k] == first.value;
      forall j: nat | FirstAccessAt(rows, user, workspace, j)
        ensures j == k
      {
      }
      assert Accessing(rows, user, workspace);
    }
  }

  /** The seat of an asset on a workspace, read off the table. */
  lemma SeatInBrief(rows: seq<Relation>, user: string, workspace: string)
    ensures RoleReads(rows, user, workspace, Seat(rows, user, workspace))
  {
    OwningOfTable(rows, user, workspace);
    if Owning(rows, user, workspace) {
      FirstAccessOfTable(rows, user, workspace);
    } else {
      FirstRowDecides(rows, user, workspace, Seat(rows, user, workspace));
    }
  }

  lemma {:induction false} OwnerRowsAreOwned(relations: seq<Relation>, user: string)
    ensures forall m :: m in OwnerRows(relations, user) ==>
      m.role == OWNER && m.workspace in Owned(relations, user)
  {
    if relations != [] {
      OwnerRowsAreOwned(relations[1..], user);
      OwnedOneMore(relations, user);
    }
  }

  /** Each row for access is the workspace's first, and no workspace has two. */
  lemma {:induction false} AccessRowsAreFirst(relations: seq<Relation>, user: string, claimed: set<string>)
    ensures
      var rows := AccessRows(relations, user, claimed);
      && (forall m :: m in rows ==>
        && m.workspace !in claimed
        && FirstAccess(relations, user, m.workspace).Some?
        && m.role == SeatRole(FirstAccess(relations, user, m.workspace).value))
      && (forall w :: w !in claimed && FirstAccess(relations, user, w).Some? ==> Lists(rows, w))
      && forall i, j :: 0 <= i < j < |rows| ==> rows[i].workspace != rows[j].workspace
  {
    if relations != [] {
      var r := relations[0];
      if Accesses(r, user) && r.target !in claimed {
        var tail := AccessRows(relations[1..], user, claimed + {r.target});
        AccessRowsAreFirst(relations[1..], user, claimed + {r.target});
        var row := MembershipRow(r.target, SeatRole(r));
        var rows := [row] + tail;
        assert rows == AccessRows(relations, user, claimed);
        assert forall j :: 1 <= j < |rows| ==> rows[j] == tail[j - 1] && rows[j] in tail;
        forall w | w !in claimed && FirstAccess(relations, user, w).Some?
          ensures Lists(rows, w)
        {
          if w == r.target {
            assert row in rows;
          } else {
            var m :| m in tail && m.workspace == w;
            assert m in rows;
          }
        }
      } else {
        AccessRowsAreFirst(relations[1..], user, claimed);
      }
    }
  }

  /** The membership list read off the table: which workspaces are on it, and in what role. */
  lemma MembershipsInBrief(rows: seq<Relation>, user: string)
    ensures
      var membership := Memberships(Touching(rows, user), user);
      && ListsWorkspaces(rows, user, membership)
      && forall m :: m in membership ==> RoleReads(rows, user, m.workspace, m.role)
  {
    var relations := Touching(rows, user);
    var owners, access := OwnerRows(relations, user), AccessRows(relations, user, Owned(relations, user));
    var membership := Memberships(relations, user);
    OwnerRowsAreOwned(relations, user);
    AccessRowsAreFirst(relations, user, Owned(relations, user));
    forall m | m in membership
      ensures RoleReads(rows, user, m.workspace, m.role)
    {
      OwningOfTable(rows, user, m.workspace);
      if m in owners {
        FirstAccessOfTable(rows, user, m.workspace);
      } else {
        FirstRowDecides(rows, user, m.workspace, m.role);
      }
    }
    forall w
      ensures Lists(membership, w) <==> Owning(rows, user, w) || Accessing(rows, user, w)
    {
      ListedIsOwnedOrAccessed(rows, user, w);
    }
    forall i, j | 0 <= i < j < |membership| && membership[i].workspace == membership[j].workspace
      ensures Owning(rows, user, membership[i].workspace)
    {
      OwningOfTable(rows, user, membership[i].workspace);
      if i < |owners| {
        assert membership[i] == owners[i] && membership[i] in owners;
      }
    }
  }

  lemma ListedIsOwnedOrAccessed(rows: seq<Relation>, user: string, w: string)
    ensures Lists(Memberships(Touching(rows, user), user), w)
      <==> Owning(rows, user, w) || Accessing(rows, user, w)
  {
    var relations := Touching(rows, user);
    var owners, access := OwnerRows(relations, user), AccessRows(relations, user, Owned(relations, user));
    OwningOfTable(rows, user, w);
    OwnerRowsSeat(relations, user, w);
    FirstAccessOfTable(rows, user, w);
    AccessRowsAreFirst(relations, user, Owned(relations, user));
    if m :| m in owners && m.workspace == w {
      assert m in owners + access;
    }
    if m :| m in access && m.workspace == w {
      assert m in owners + access;
    }
    if m :| m in owners + access && m.workspace == w {
      assert m in owners || m in access;
    }
    if Accessing(rows, user, w) && !Owning(rows, user, w) {
      assert Lists(access, w);
    }
  }

  // ---------- Materializing owner rows ----------

  predicate HasAccessRow(rows: seq<Relation>, owning: Relation) {
    exists r :: r in Touching(rows, owning.source) && r.kind == HasAccess && r.target == owning.target
  }

  predicate OwnerRow(r: Relation, owning: Relation) {
    && r.source == owning.source && r.target == owning.target && r.kind == HasAccess
    && r.metadata == map["role" := Text(OWNER)]
  }

  /** Every row after the first `n` repeats, as has_access with role owner, a has_instance row
      among the first `n`. */
  ghost predicate OnlyOwnerRowsAdded(rows: seq<Relation>, n: nat) {
    n <= |rows| && forall k :: n <= k < |rows| ==> Repeats(rows[..n], rows[k])
  }

  ghost predicate Repeats(rows: seq<Relation>, r: Relation) {
    exists o :: o in rows && o.kind == HasInstance && OwnerRow(r, o)
  }

  ghost predicate AllMaterialized(rows: seq<Relation>) {
    forall o :: o in rows && o.kind == HasInstance ==> HasAccessRow(rows, o)
  }

  method BackfillOwners(relations: RelationRepository.Repository) returns (created: nat)
    modifies relations
    ensures |relations.rows| == |old(relations.rows)| + created
    ensures relations.rows[..|old(relations.rows)|] == old(relations.rows)
    ensures OnlyOwnerRowsAdded(relations.rows, |old(relations.rows)|)
    ensures AllMaterialized(relations.rows)
    ensures AllMaterialized(old(relations.rows)) ==> created == 0
    ensures RelationRuns.Changes(old(relations.rows), relations.rows)
  {
    var owning := relations.ListByType(HasInstance);
    ghost var rows0 := relations.rows;
    FilterMembers((x: Relation) => x.kind == HasInstance, rows0);
    created := 0;
    for i := 0 to |owning|
      invariant Backfilling(relations.rows, rows0, owning, i, created)
    {
      var o := owning[i];
      assert o in owning;
      var existing := relations.GetAssetRelations(o.source);
      if exists r :: r in existing && r.kind == HasAccess && r.target == o.target {
        RowSkipped(relations.rows, rows0, owning, i, created);
        continue;
      }
      var id := Ids.NewId(set r | r in relations.rows :: r.id);
      var row := Relation(id, o.source, o.target, HasAccess, map["role" := Text(OWNER)]);
      RowBackfilled(relations.rows, rows0, owning, i, created, row);
      relations.Create(row);
      created := created + 1;
    }
    OwnersWereListed(relations.rows, |rows0|);
    OwnerRowsAreBeside(rows0, relations.rows);
  }

  /** The first `i` of the listed has_instance rows have their has_access row. */
  ghost predicate Backfilling(
    rows: seq<Relation>, rows0: seq<Relation>, owning: seq<Relation>, i: nat, created: nat)
  {
    && i <= |owning| && |rows| == |rows0| + created && rows[..|rows0|] == rows0
    && OnlyOwnerRowsAdded(rows, |rows0|)
    && (forall k :: 0 <= k < i ==> HasAccessRow(rows, owning[k]))
    && (AllMaterialized(rows0) ==> created == 0)
  }

  lemma RowSkipped(
    rows: seq<Relation>, rows0: seq<Relation>, owning: seq<Relation>, i: nat, created: nat)
    requires Backfilling(rows, rows0, owning, i, created) && i < |owning|
    requires HasAccessRow(rows, owning[i])
    ensures Backfilling(rows, rows0, owning, i + 1, created)
  {
  }

  lemma RowBackfilled(
    rows: seq<Relation>, rows0: seq<Relation>, owning: seq<Relation>, i: nat, created: nat,
    row: Relation)
    requires Backfilling(rows, rows0, owning, i, created) && i < |owning|
    requires owning[i] in rows0 && owning[i].kind == HasInstance && OwnerRow(row, owning[i])
    requires !HasAccessRow(rows, owning[i])
    ensures Backfilling(rows + [row], rows0, owning, i + 1, created + 1)
  {
    AppendedOwnerRow(rows, row, owning[i], |rows0|);
    forall k | 0 <= k < i
      ensures HasAccessRow(rows + [row], owning[k])
    {
      AccessRowKept(rows, row, owning[k]);
    }
    assert created == 0 ==> rows == rows0;
  }

  lemma AppendedOwnerRow(rows: seq<Relation>, row: Relation, o: Relation, n: nat)
    requires OnlyOwnerRowsAdded(rows, n) && o in rows[..n] && o.kind == HasInstance && OwnerRow(row, o)
    ensures OnlyOwnerRowsAdded(rows + [row], n) && (rows + [row])[..n] == rows[..n]
    ensures HasAccessRow(rows + [row], o)
  {
    assert (rows + [row])[..n] == rows[..n];
    RelationRepository.TouchingMembers(rows + [row], o.source);
    assert row in Touching(rows + [row], o.source);
  }

  lemma AccessRowKept(rows: seq<Relation>, row: Relation, o: Relation)
    requires HasAccessRow(rows, o)
    ensures HasAccessRow(rows + [row], o)
  {
    RelationRepository.TouchingMembers(rows, o.source);
    RelationRepository.TouchingMembers(rows + [row], o.source);
    var r :| r in Touching(rows, o.source) && r.kind == HasAccess && r.target == o.target;
    assert r in Touching(rows + [row], o.source);
  }

  lemma OwnersWereListed(rows: seq<Relation>, n: nat)
    requires OnlyOwnerRowsAdded(rows, n)
    ensures forall o :: o in rows && o.kind == HasInstance ==> o in rows[..n]
  {
    forall o | o in rows && o.kind == HasInstance
      ensures o in rows[..n]
    {
      var k :| 0 <= k < |rows| && rows[k] == o;
      assert k < n;
      assert rows[..n][k] == o;
    }
  }

  /** The rows the backfill adds change no membership list. */
  lemma {:induction false} BackfillIsInvisible(rows: seq<Relation>, n: nat, user: string)
    requires OnlyOwnerRowsAdded(rows, n)
    ensures Memberships(Touching(rows, user), user) == Memberships(Touching(rows[..n], user), user)
    decreases |rows|
  {
    if n < |rows| {
      var front, last := rows[..|rows| - 1], rows[|rows| - 1];
      assert rows == front + [last] && front[..n] == rows[..n];
      assert OnlyOwnerRowsAdded(front, n);
      BackfillIsInvisible(front, n, user);
      var o :| o in rows[..n] && o.kind == HasInstance && OwnerRow(last, o);
      assert o in front;
      OwnerRowIsInvisible(front, last, o, user);
    } else {
      assert rows[..n] == rows;
    }
  }

  lemma OwnerRowIsInvisible(rows: seq<Relation>, last: Relation, o: Relation, user: string)
    requires o in rows && o.kind == HasInstance && OwnerRow(last, o)
    ensures Memberships(Touching(rows + [last], user), user) == Memberships(Touching(rows, user), user)
  {
    var p := (r: Relation) => Touches(r, user);
    FilterAppend(p, rows, [last]);
    RelationRepository.TouchingMembers(rows, user);
    if Touches(last, user) {
      assert Filter(p, [last]) == [last];
      ClaimedAccessIgnored(Touching(rows, user), last, user);
    } else {
      assert Filter(p, [last]) == [];
      assert Touching(rows + [last], user) == Touching(rows, user);
    }
  }

  lemma ClaimedAccessIgnored(relations: seq<Relation>, last: Relation, user: string)
    requires last.kind == HasAccess
    requires last.source == user ==> last.target in Owned(relations, user)
    ensures Memberships(relations + [last], user) == Memberships(relations, user)
  {
    assert Owned(relations + [last], user) == Owned(relations, user);
    OwnerRowsAppend(relations, last, user);
    AccessRowsAppend(relations, last, user, Owned(relations, user));
  }

  lemma {:induction false} OwnerRowsAppend(relations: seq<Relation>, last: Relation, user: string)
    requires last.kind == HasAccess
    ensures OwnerRows(relations + [last], user) == OwnerRows(relations, user)
  {
    if relations == [] {
      assert [last][1..] == [] && relations + [last] == [last];
    } else {
      assert (relations + [last])[1..] == relations[1..] + [last];
      OwnerRowsAppend(relations[1..], last, user);
    }
  }

  lemma {:induction false} AccessRowsAppend(
    relations: seq<Relation>, last: Relation, user: string, claimed: set<string>)
    requires last.source == user ==> last.target in claimed
    ensures AccessRows(relations + [last], user, claimed) == AccessRows(relations, user, claimed)
  {
    if relations == [] {
      assert [last][1..] == [] && relations + [last] == [last];
    } else {
      var r := relations[0];
      assert (relations + [last])[1..] == relations[1..] + [last];
      var claims := if Accesses(r, user) && r.target !in claimed then claimed + {r.target} else claimed;
      AccessRowsAppend(relations[1..], last, user, claims);
    }
  }

  lemma OwnerRowsAreBeside(rows0: seq<Relation>, rows: seq<Relation>)
    requires |rows0| <= |rows| && rows[..|rows0|] == rows0 && OnlyOwnerRowsAdded(rows, |rows0|)
    ensures RelationRuns.AddsBeside(rows0, rows)
  {
    forall k | |rows0| <= k < |rows|
      ensures Edge(rows0, rows[k].source, rows[k].target)
    {
      assert Repeats(rows0, rows[k]);
    }
  }

  /** The backfill bypasses the cycle check, yet closes no cycle: its rows run parallel to
      rows already there. */
  lemma BackfillKeepsAcyclic(rows: seq<Relation>, n: nat)
    requires OnlyOwnerRowsAdded(rows, n) && Acyclic(rows[..n])
    ensures Acyclic(rows)
  {
    OwnerRowsAreBeside(rows[..n], rows);
    RelationRuns.ChangeKeepsAcyclic(rows[..n], rows);
  }

  /** Once no relation joins an asset to itself, each has_instance row ends up with a
      has_access row of its own pair. */
  lemma BackfillMaterializesPairs(rows: seq<Relation>)
    requires Acyclic(rows) && AllMaterialized(rows)
    ensures forall o :: o in rows && o.kind == HasInstance ==>
      exists r :: r in rows && r.kind == HasAccess && r.source == o.source && r.target == o.target
  {
    NoSelfLoops(rows);
    forall o | o in rows && o.kind == HasInstance
      ensures exists r :: r in rows && r.kind == HasAccess && r.source == o.source && r.target == o.target
    {
      RelationRepository.TouchingMembers(rows, o.source);
      var r :| r in Touching(rows, o.source) && r.kind == HasAccess && r.target == o.target;
      assert r in rows && r.source == o.source;
    }
  }
}
