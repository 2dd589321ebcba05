/** Group mutations as the service does them, each with its audit entry, and the seeding of
    admins when a store is opened. */
module GroupService {
  import opened Outcomes
  import opened Models
  import opened Tables
  import opened Groups
  import Audit
  import Collections
  import Text

  /** A store without the admin group, as one whose backend has no migration, gets one; a
      migrated store is left as it is. */
  method EnsureInstanceAdminsGroup(groups: Repository) returns (result: Result<()>)
    requires Distinct(groups.groups)
    modifies groups
    ensures Distinct(groups.groups) && result.Ok? && groups.members == old(groups.members)
    ensures if HasName(old(groups.groups), INSTANCE_ADMINS) then groups.groups == old(groups.groups)
      else
        && |groups.groups| == |old(groups.groups)| + 1
        && groups.groups[..|old(groups.groups)|] == old(groups.groups)
        && groups.groups[|old(groups.groups)|].name == INSTANCE_ADMINS
  {
    var found := groups.GetGroupByName(INSTANCE_ADMINS);
    if found.Some? {
      return Ok(());
    }
    var created := groups.CreateGroup(INSTANCE_ADMINS);
    result := Ok(());
  }

  lemma SoundHasAdmins(groups: seq<Group>, members: set<Member>)
    requires Sound(groups, members)
    ensures HasName(groups, INSTANCE_ADMINS) && Has(groups, INSTANCE_ADMINS_ID)
  {
    var admins := Group(INSTANCE_ADMINS_ID, INSTANCE_ADMINS);
    assert admins in groups && admins.name == INSTANCE_ADMINS && admins.id == INSTANCE_ADMINS_ID;
  }

  method Create(groups: Repository, audit: Audit.Repository, clock: Clock, name: string, user: string)
    returns (result: Result<Group>)
    requires groups.Valid() && clock.Valid()
    modifies groups, audit, clock
    ensures groups.Valid() && clock.Valid() && groups.members == old(groups.members)
    ensures
      var trimmed := Text.Trim(name);
      if trimmed == "" then result == Err(BadRequest) && groups.groups == old(groups.groups)
      else if trimmed == INSTANCE_ADMINS || HasName(old(groups.groups), trimmed) then
        result == Err(Conflict) && groups.groups == old(groups.groups)
      else
        && result.Ok? && result.value.name == trimmed
        && groups.groups == old(groups.groups) + [result.value]
        && Logged(old(audit.rows), audit.rows, Audit.Create, result.value.id, Audit.NameChange(trimmed))
    ensures result.Err? ==> audit.rows == old(audit.rows)
  {
    var trimmed := Text.Trim(name);
    if trimmed == "" {
      return Err(BadRequest);
    }
    if trimmed == INSTANCE_ADMINS {
      return Err(Conflict);
    }
    result := groups.CreateGroup(trimmed);
    if result.Ok? {
      var now := clock.Now();
      var entry := audit.Create(
        "group", result.value.id, Audit.Create, Audit.NameChange(trimmed), user, now);
    }
  }

  /** One entry was appended, telling this. */
  ghost predicate Logged(
    rows: seq<Audit.AuditRow>, rows': seq<Audit.AuditRow>, action: Audit.AuditAction, id: string,
    changes: Audit.Changes)
  {
    && Collections.Appended(rows, rows')
    && Collections.Last(rows').entityType == "group" && Collections.Last(rows').entityId == id
    && Collections.Last(rows').action == action && Collections.Last(rows').changes == changes
  }

  method Delete(groups: Repository, audit: Audit.Repository, clock: Clock, id: string, user: string)
    returns (result: Result<()>)
    requires groups.Valid() && clock.Valid()
    modifies groups, audit, clock
    ensures groups.Valid() && clock.Valid()
    ensures result == if !Has(old(groups.groups), id) then Err(NotFound)
      else if id == INSTANCE_ADMINS_ID then Err(BadRequest) else Ok(())
    ensures result.Err? ==>
      && groups.groups == old(groups.groups) && groups.members == old(groups.members)
      && audit.rows == old(audit.rows)
    ensures result.Ok? ==>
      && (forall g :: g in groups.groups <==> g in old(groups.groups) && g.id != id)
      && (forall m :: m in groups.members <==> m in old(groups.members) && m.group != id)
      && Collections.Appended(old(audit.rows), audit.rows)
  {
    if g :| g in groups.groups && g.id == id {
      result := groups.DeleteGroup(id);
      if result.Ok? {
        var now := clock.Now();
        var entry := audit.Create("group", id, Audit.Delete, Audit.NameChange(g.name), user, now);
      }
    } else {
      result := Err(NotFound);
    }
  }

  method AddMember(
    groups: Repository, audit: Audit.Repository, clock: Clock, group: string, member: string,
    user: string)
    returns (result: Result<()>)
    requires groups.Valid() && clock.Valid()
    modifies groups`members, audit, clock
    ensures groups.Valid() && clock.Valid()
    ensures
      var trimmed := Text.Trim(member);
      && result == (if trimmed == "" then Err(BadRequest)
        else if Has(groups.groups, group) then Ok(()) else Err(NotFound))
      && (if result.Ok? then
          && groups.members == old(groups.members) + {Member(group, trimmed)}
          && Logged(
            old(audit.rows), audit.rows, Audit.AddMember, group, Audit.MemberChange(trimmed, false))
        else groups.members == old(groups.members) && audit.rows == old(audit.rows))
  {
    var trimmed := Text.Trim(member);
    if trimmed == "" {
      return Err(BadRequest);
    }
    result := groups.AddMember(group, trimmed);
    if result.Ok? {
      var now := clock.Now();
      var entry := audit.Create(
        "group", group, Audit.AddMember, Audit.MemberChange(trimmed, false), user, now);
    }
  }

  method RemoveMember(
    groups: Repository, audit: Audit.Repository, clock: Clock, group: string, member: string,
    user: string)
    requires groups.Valid() && clock.Valid()
    modifies groups`members, audit, clock
    ensures groups.Valid() && clock.Valid()
    ensures groups.members == old(groups.members) - {Member(group, member)}
    ensures Logged(
      old(audit.rows), audit.rows, Audit.RemoveMember, group, Audit.MemberChange(member, false))
  {
    groups.RemoveMember(group, member);
    var now := clock.Now();
    var entry := audit.Create(
      "group", group, Audit.RemoveMember, Audit.MemberChange(member, false), user, now);
  }

  // ---------- Seeding ----------

  /** What becomes of each sub of a seeding, where it is tried: the add may fail, and so may
      the write of its entry, which is not waited for. */
  datatype Attempt = Attempt(adds: bool, logs: bool)

  predicate Tried(existing: set<string>, sub: string) {
    Text.Trim(sub) != "" && Text.Trim(sub) !in existing
  }

  /** The subs that land, in order, repeats and all. */
  function Landing(existing: set<string>, subs: seq<string>, attempts: nat -> Attempt, n: nat): seq<string>
    requires n <= |subs|
  {
    if n == 0 then []
    else
      var before := Landing(existing, subs, attempts, n - 1);
      if Tried(existing, subs[n - 1]) && attempts(n - 1).adds then before + [Text.Trim(subs[n - 1])]
      else before
  }

  /** Of those, the ones with an entry. */
  function LandingLogged(existing: set<string>, subs: seq<string>, attempts: nat -> Attempt, n: nat)
    : seq<string>
    requires n <= |subs|
  {
    if n == 0 then []
    else
      var before := LandingLogged(existing, subs, attempts, n - 1);
      if Tried(existing, subs[n - 1]) && attempts(n - 1).adds && attempts(n - 1).logs then
        before + [Text.Trim(subs[n - 1])]
      else before
  }

  function AdminsIn(members: set<Member>): set<string> {
    set m | m in members && m.group == INSTANCE_ADMINS_ID :: m.member
  }

  function AsAdmins(subs: seq<string>): set<Member> {
    set sub | sub in subs :: Member(INSTANCE_ADMINS_ID, sub)
  }

  /** These entries were appended, one for each of these members. */
  ghost predicate LoggedSeeds(
    rows: seq<Audit.AuditRow>, rows': seq<Audit.AuditRow>, members: seq<string>)
  {
    && |rows'| == |rows| + |members| && rows'[..|rows|] == rows
    && forall k :: |rows| <= k < |rows'| ==> SeedEntry(rows'[k], members[k - |rows|])
  }

  predicate SeedEntry(entry: Audit.AuditRow, member: string) {
    && entry.action == Audit.AddMember && entry.entityId == INSTANCE_ADMINS_ID
    && entry.changes == Audit.MemberChange(member, true)
  }

  ghost predicate Seeding(
    members: set<Member>, members': set<Member>, rows: seq<Audit.AuditRow>,
    rows': seq<Audit.AuditRow>, subs: seq<string>, attempts: nat -> Attempt, n: nat)
  {
    var existing := AdminsIn(members);
    && n <= |subs|
    && members' == members + AsAdmins(Landing(existing, subs, attempts, n))
    && LoggedSeeds(rows, rows', LandingLogged(existing, subs, attempts, n))
  }

  lemma SeedSkipped(
    members: set<Member>, members': set<Member>, rows: seq<Audit.AuditRow>,
    rows': seq<Audit.AuditRow>, subs: seq<string>, attempts: nat -> Attempt, n: nat)
    requires n < |subs| && Seeding(members, members', rows, rows', subs, attempts, n)
    requires !(Tried(AdminsIn(members), subs[n]) && attempts(n).adds)
    ensures Seeding(members, members', rows, rows', subs, attempts, n + 1)
  {
  }

  lemma SeedLanded(
    members: set<Member>, members': set<Member>, rows: seq<Audit.AuditRow>,
    rows': seq<Audit.AuditRow>, rows'': seq<Audit.AuditRow>, subs: seq<string>,
    attempts: nat -> Attempt, n: nat)
    requires n < |subs| && Seeding(members, members', rows, rows', subs, attempts, n)
    requires Tried(AdminsIn(members), subs[n]) && attempts(n).adds
    requires if attempts(n).logs
      then Logged(rows', rows'', Audit.AddMember, INSTANCE_ADMINS_ID,
        Audit.MemberChange(Text.Trim(subs[n]), true))
      else rows'' == rows'
    ensures Seeding(members, members' + {Member(INSTANCE_ADMINS_ID, Text.Trim(subs[n]))},
      rows, rows'', subs, attempts, n + 1)
  {
    var existing := AdminsIn(members);
    var before, after := Landing(existing, subs, attempts, n), Landing(existing, subs, attempts, n + 1);
    assert after == before + [Text.Trim(subs[n])];
    assert AsAdmins(after) == AsAdmins(before) + {Member(INSTANCE_ADMINS_ID, Text.Trim(subs[n]))};
    if attempts(n).logs {
      LoggedOneMore(
        rows, rows', rows'', LandingLogged(existing, subs, attempts, n), Text.Trim(subs[n]));
    }
  }

  lemma LoggedOneMore(
    rows: seq<Audit.AuditRow>, rows': seq<Audit.AuditRow>, rows'': seq<Audit.AuditRow>,
    members: seq<string>, sub: string)
    requires LoggedSeeds(rows, rows', members)
    requires Logged(rows', rows'', Audit.AddMember, INSTANCE_ADMINS_ID, Audit.MemberChange(sub, true))
    ensures LoggedSeeds(rows, rows'', members + [sub])
  {
    assert rows''[..|rows|] == rows'[..|rows|];
    forall k | |rows| <= k < |rows''|
      ensures SeedEntry(rows''[k], (members + [sub])[k - |rows|])
    {
      if k < |rows'| {
        assert rows''[..|rows'|][k] == rows'[k];
      }
    }
  }

  /** Who is an admin already is read once, before the loop. */
  method SeedInstanceAdmins(
    groups: Repository, audit: Audit.Repository, clock: Clock, subs: seq<string>,
    attempts: nat -> Attempt, actor: string)
    returns (result: Result<()>)
    requires groups.Valid() && clock.Valid()
    modifies groups`members, audit, clock
    ensures groups.Valid() && clock.Valid() && result.Ok?
    ensures Seeding(old(groups.members), groups.members, old(audit.rows), audit.rows, subs, attempts, |subs|)
    ensures forall m :: m in groups.members <==>
      || m in old(groups.members)
      || (m.group == INSTANCE_ADMINS_ID && m.member != ""
        && exists k :: 0 <= k < |subs| && Text.Trim(subs[k]) == m.member && attempts(k).adds)
    ensures forall e :: e in audit.rows && e !in old(audit.rows) ==>
      SeedsOne(e, old(groups.members), subs, attempts)
  {
    if subs == [] {
      SeedingInBrief(groups.members, groups.members, audit.rows, audit.rows, subs, attempts);
      return Ok(());
    }
    SoundHasAdmins(groups.groups, groups.members);
    var group := groups.GetGroupByName(INSTANCE_ADMINS);
    AdminsAreOne(groups.groups, groups.members, group.value);
    var existing := set m | m in groups.members && m.group == group.value.id :: m.member;
    ghost var members, rows := groups.members, audit.rows;
    for i := 0 to |subs|
      invariant groups.Valid() && clock.Valid()
      invariant Seeding(members, groups.members, rows, audit.rows, subs, attempts, i)
    {
      var sub := Text.Trim(subs[i]);
      if sub == "" || sub in existing || !attempts(i).adds {
        SeedSkipped(members, groups.members, rows, audit.rows, subs, attempts, i);
        continue;
      }
      ghost var members', rows' := groups.members, audit.rows;
      SeedOne(groups, audit, clock, sub, attempts(i).logs, actor);
      SeedLanded(members, members', rows, rows', audit.rows, subs, attempts, i);
    }
    SeedingInBrief(members, groups.members, rows, audit.rows, subs, attempts);
    result := Ok(());
  }

  /** The entry tells of a sub that was no admin before, and is one now. */
  ghost predicate SeedsOne(
    e: Audit.AuditRow, members: set<Member>, subs: seq<string>, attempts: nat -> Attempt)
  {
    && e.action == Audit.AddMember && e.entityId == INSTANCE_ADMINS_ID && e.changes.MemberChange?
    && e.changes.seed && e.changes.member != ""
    && Member(INSTANCE_ADMINS_ID, e.changes.member) !in members
    && (exists k ::
      0 <= k < |subs| && Text.Trim(subs[k]) == e.changes.member && attempts(k).adds && attempts(k).logs)
  }

  lemma {:induction false} LandingMembers(
    existing: set<string>, subs: seq<string>, attempts: nat -> Attempt, n: nat, sub: string)
    requires n <= |subs|
    ensures sub in Landing(existing, subs, attempts, n) <==>
      exists k :: 0 <= k < n && Tried(existing, subs[k]) && attempts(k).adds && Text.Trim(subs[k]) == sub
  {
    if n > 0 {
      LandingMembers(existing, subs, attempts, n - 1, sub);
    }
  }

  lemma AdminIsIn(members: set<Member>, sub: string)
    ensures sub in AdminsIn(members) <==> Member(INSTANCE_ADMINS_ID, sub) in members
  {
    if Member(INSTANCE_ADMINS_ID, sub) in members {
      var m := Member(INSTANCE_ADMINS_ID, sub);
      assert m.group == INSTANCE_ADMINS_ID && m.member == sub;
    }
  }

  /** A finished seeding, read off the subs. */
  lemma SeedingInBrief(
    members: set<Member>, members': set<Member>, rows: seq<Audit.AuditRow>,
    rows': seq<Audit.AuditRow>, subs: seq<string>, attempts: nat -> Attempt)
    requires Seeding(members, members', rows, rows', subs, attempts, |subs|)
    ensures forall m :: m in members' <==>
      || m in members
      || (m.group == INSTANCE_ADMINS_ID && m.member != ""
        && exists k :: 0 <= k < |subs| && Text.Trim(subs[k]) == m.member && attempts(k).adds)
    ensures forall e :: e in rows' && e !in rows ==> SeedsOne(e, members, subs, attempts)
  {
    var existing := AdminsIn(members);
    var landing := Landing(existing, subs, attempts, |subs|);
    forall m: Member
      ensures m in members' <==>
        || m in members
        || (m.group == INSTANCE_ADMINS_ID && m.member != ""
          && exists k :: 0 <= k < |subs| && Text.Trim(subs[k]) == m.member && attempts(k).adds)
    {
      LandingMembers(existing, subs, attempts, |subs|, m.member);
      AdminIsIn(members, m.member);
      assert m in AsAdmins(landing) <==> m.group == INSTANCE_ADMINS_ID && m.member in landing;
    }
    forall e | e in rows' && e !in rows
      ensures SeedsOne(e, members, subs, attempts)
    {
      EntrySeedsOne(members, rows, rows', subs, attempts, e);
    }
  }

  lemma AppendedAt(rows: seq<Audit.AuditRow>, rows': seq<Audit.AuditRow>, e: Audit.AuditRow)
    returns (i: nat)
    requires |rows| <= |rows'| && rows'[..|rows|] == rows && e in rows' && e !in rows
    ensures |rows| <= i < |rows'| && rows'[i] == e
  {
    assert rows' == rows + rows'[|rows|..];
    i :| |rows| <= i < |rows'| && rows'[i] == e;
  }

  lemma EntrySeedsOne(
    members: set<Member>, rows: seq<Audit.AuditRow>, rows': seq<Audit.AuditRow>, subs: seq<string>,
    attempts: nat -> Attempt, e: Audit.AuditRow)
    requires LoggedSeeds(
      rows, rows', LandingLogged(AdminsIn(members), subs, attempts, |subs|))
    requires e in rows' && e !in rows
    ensures SeedsOne(e, members, subs, attempts)
  {
    var logged := LandingLogged(AdminsIn(members), subs, attempts, |subs|);
    var i := AppendedAt(rows, rows', e);
    assert SeedEntry(rows'[i], logged[i - |rows|]);
    assert logged[i - |rows|] in logged;
    LoggedMembers(AdminsIn(members), subs, attempts, |subs|, logged[i - |rows|]);
    AdminIsIn(members, logged[i - |rows|]);
  }

  method SeedOne(
    groups: Repository, audit: Audit.Repository, clock: Clock, sub: string, logs: bool, actor: string)
    requires groups.Valid() && clock.Valid()
    modifies groups`members, audit, clock
    ensures groups.Valid() && clock.Valid()
    ensures groups.members == old(groups.members) + {Member(INSTANCE_ADMINS_ID, sub)}
    ensures if logs then Logged(
        old(audit.rows), audit.rows, Audit.AddMember, INSTANCE_ADMINS_ID, Audit.MemberChange(sub, true))
      else audit.rows == old(audit.rows)
  {
    SoundHasAdmins(groups.groups, groups.members);
    var added := groups.AddMember(INSTANCE_ADMINS_ID, sub);
    if logs {
      var now := clock.Now();
      var entry := audit.Create(
        "group", INSTANCE_ADMINS_ID, Audit.AddMember, Audit.MemberChange(sub, true), actor, now);
    }
  }

  /** Once every add of a seeding has succeeded, seeding the same list again, repeats and all,
      changes neither memberships nor the audit table, however its attempts would go. */
  lemma ReseedingChangesNothing(
    members: set<Member>, members': set<Member>, members'': set<Member>,
    rows: seq<Audit.AuditRow>, rows': seq<Audit.AuditRow>, rows'': seq<Audit.AuditRow>,
    subs: seq<string>, first: nat -> Attempt, second: nat -> Attempt)
    requires Seeding(members, members', rows, rows', subs, first, |subs|)
    requires forall k :: 0 <= k < |subs| ==> first(k).adds
    requires Seeding(members', members'', rows', rows'', subs, second, |subs|)
    ensures members'' == members' && rows'' == rows'
  {
    AllLand(AdminsIn(members), subs, first, |subs|);
    forall k | 0 <= k < |subs|
      ensures !Tried(AdminsIn(members'), subs[k])
    {
      var sub := Text.Trim(subs[k]);
      if sub != "" && sub !in AdminsIn(members) {
        assert Member(INSTANCE_ADMINS_ID, sub) in AsAdmins(Landing(AdminsIn(members), subs, first, |subs|));
        assert Member(INSTANCE_ADMINS_ID, sub) in members';
      } else if sub != "" {
        var m :| m in members && m.group == INSTANCE_ADMINS_ID && m.member == sub;
        assert m in members';
      }
    }
    NoneLand(AdminsIn(members'), subs, second, |subs|);
  }

  lemma {:induction false} AllLand(
    existing: set<string>, subs: seq<string>, attempts: nat -> Attempt, n: nat)
    requires n <= |subs| && forall k :: 0 <= k < |subs| ==> attempts(k).adds
    ensures forall k :: 0 <= k < n && Tried(existing, subs[k]) ==>
      Text.Trim(subs[k]) in Landing(existing, subs, attempts, n)
  {
    if n > 0 {
      AllLand(existing, subs, attempts, n - 1);
    }
  }

  lemma {:induction false} NoneLand(
    existing: set<string>, subs: seq<string>, attempts: nat -> Attempt, n: nat)
    requires n <= |subs| && forall k :: 0 <= k < |subs| ==> !Tried(existing, subs[k])
    ensures Landing(existing, subs, attempts, n) == []
    ensures LandingLogged(existing, subs, attempts, n) == []
  {
    if n > 0 {
      NoneLand(existing, subs, attempts, n - 1);
    }
  }

  /** Within one seeding a repeated sub is not skipped: it is added again, to no effect, and
      has a second entry. */
  lemma RepeatIsLoggedAgain(existing: set<string>, sub: string, attempts: nat -> Attempt)
    requires Tried(existing, sub) && attempts(0) == attempts(1) == Attempt(true, true)
    ensures LandingLogged(existing, [sub, sub], attempts, 2) == [Text.Trim(sub), Text.Trim(sub)]
  {
    assert LandingLogged(existing, [sub, sub], attempts, 1) == [Text.Trim(sub)];
  }

  /** The `k`-th sub lands and has its entry. */
  predicate HasEntry(existing: set<string>, subs: seq<string>, attempts: nat -> Attempt, k: nat)
    requires k < |subs|
  {
    Tried(existing, subs[k]) && attempts(k).adds && attempts(k).logs
  }

  lemma {:induction false} LoggedMembers(
    existing: set<string>, subs: seq<string>, attempts: nat -> Attempt, n: nat, sub: string)
    requires n <= |subs|
    ensures sub in LandingLogged(existing, subs, attempts, n) <==>
      exists k :: 0 <= k < n && HasEntry(existing, subs, attempts, k) && Text.Trim(subs[k]) == sub
  {
    if n > 0 {
      LoggedMembers(existing, subs, attempts, n - 1, sub);
    }
  }

  /** Two subs with entries that come to the same member. */
  predicate Collide(existing: set<string>, subs: seq<string>, attempts: nat -> Attempt, i: nat, j: nat)
    requires i < |subs| && j < |subs|
  {
    && HasEntry(existing, subs, attempts, i) && HasEntry(existing, subs, attempts, j)
    && Text.Trim(subs[i]) == Text.Trim(subs[j])
  }

  ghost predicate NoneCollide(
    existing: set<string>, subs: seq<string>, attempts: nat -> Attempt, n: nat)
    requires n <= |subs|
  {
    forall i, j :: 0 <= i < j < n ==> !Collide(existing, subs, attempts, i, j)
  }

  /** Each member that a seeding adds has one entry exactly if no two of its subs collide. */
  lemma {:induction false} LoggedOnceExactly(
    existing: set<string>, subs: seq<string>, attempts: nat -> Attempt, n: nat)
    requires n <= |subs|
    ensures NoDuplicates(LandingLogged(existing, subs, attempts, n)) <==>
      NoneCollide(existing, subs, attempts, n)
  {
    if n > 0 {
      LoggedOnceNext(existing, subs, attempts, n - 1);
      NoneCollideNext(existing, subs, attempts, n - 1);
      LoggedOnceExactly(existing, subs, attempts, n - 1);
    }
  }

  predicate CollidesBefore(existing: set<string>, subs: seq<string>, attempts: nat -> Attempt, n: nat)
    requires n < |subs|
  {
    exists k :: 0 <= k < n && Collide(existing, subs, attempts, k, n)
  }

  lemma NoneCollideNext(existing: set<string>, subs: seq<string>, attempts: nat -> Attempt, n: nat)
    requires n < |subs|
    ensures NoneCollide(existing, subs, attempts, n + 1) <==>
      NoneCollide(existing, subs, attempts, n) && !CollidesBefore(existing, subs, attempts, n)
  {
  }

  lemma LoggedOnceNext(existing: set<string>, subs: seq<string>, attempts: nat -> Attempt, n: nat)
    requires n < |subs|
    ensures NoDuplicates(LandingLogged(existing, subs, attempts, n + 1)) <==>
      && NoDuplicates(LandingLogged(existing, subs, attempts, n))
      && !CollidesBefore(existing, subs, attempts, n)
  {
    if HasEntry(existing, subs, attempts, n) {
      LoggedBefore(existing, subs, attempts, n);
      AppendNoDuplicates(LandingLogged(existing, subs, attempts, n), Text.Trim(subs[n]));
    }
  }

  lemma LoggedBefore(existing: set<string>, subs: seq<string>, attempts: nat -> Attempt, n: nat)
    requires n < |subs| && HasEntry(existing, subs, attempts, n)
    ensures Text.Trim(subs[n]) in LandingLogged(existing, subs, attempts, n) <==>
      CollidesBefore(existing, subs, attempts, n)
  {
    var last := Text.Trim(subs[n]);
    LoggedMembers(existing, subs, attempts, n, last);
    if last in LandingLogged(existing, subs, attempts, n) {
      var k :| 0 <= k < n && HasEntry(existing, subs, attempts, k) && Text.Trim(subs[k]) == last;
      assert Collide(existing, subs, attempts, k, n);
    }
  }

  lemma AppendNoDuplicates(s: seq<string>, x: string)
    ensures NoDuplicates(s + [x]) <==> NoDuplicates(s) && x !in s
  {
    var t := s + [x];
    assert forall i :: 0 <= i < |s| ==> t[i] == s[i];
    assert t[|s|] == x;
    if x in s {
      var i :| 0 <= i < |s| && s[i] == x;
      assert t[i] == t[|s|];
    }
  }
}
