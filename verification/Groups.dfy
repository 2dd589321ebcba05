/** An instance's own groups: their table, their members, and the seeding of the distinguished
    admin group when a store is opened. */
module Groups {
  import opened Outcomes
  import opened Tables
  import Ids
  import Lexical

  const INSTANCE_ADMINS := "instance-admins"
  const INSTANCE_ADMINS_ID := "00000000-0000-0000-0000-0000000000a1"

  datatype Group = Group(id: string, name: string)

  datatype Member = Member(group: string, member: string)

  predicate Has(groups: seq<Group>, id: string) {
    exists g :: g in groups && g.id == id
  }

  predicate HasName(groups: seq<Group>, name: string) {
    exists g :: g in groups && g.name == name
  }

  ghost predicate Distinct(groups: seq<Group>) {
    forall i, j :: 0 <= i < j < |groups| ==>
      groups[i].id != groups[j].id && groups[i].name != groups[j].name
  }

  /** Ids and names are unique, the distinguished group is there under its fixed id, and every
      membership is in a group that is there. */
  ghost predicate Sound(groups: seq<Group>, members: set<Member>) {
    && Distinct(groups)
    && Group(INSTANCE_ADMINS_ID, INSTANCE_ADMINS) in groups
    && forall m :: m in members ==> Has(groups, m.group)
  }

  predicate ByName(a: string, b: string) {
    Lexical.Less(a, b)
  }

  function NameOf(g: Group): string {
    g.name
  }

  function Joined(members: set<Member>, member: string): Group -> bool {
    (g: Group) => Member(g.id, member) in members
  }

  class Repository {
    var groups: seq<Group>
    var members: set<Member>

    ghost predicate Valid()
      reads this
    {
      Sound(groups, members)
    }

    /** A migrated store. */
    constructor ()
      ensures Valid() && groups == [Group(INSTANCE_ADMINS_ID, INSTANCE_ADMINS)] && members == {}
    {
      groups, members := [Group(INSTANCE_ADMINS_ID, INSTANCE_ADMINS)], {};
    }

    method CreateGroup(name: string) returns (result: Result<Group>)
      requires Distinct(groups)
      modifies this
      ensures Distinct(groups) && members == old(members)
      ensures old(Valid()) ==> Valid()
      ensures if HasName(old(groups), name) then result == Err(Conflict) && groups == old(groups)
        else
          && result.Ok? && result.value.name == name && !Has(old(groups), result.value.id)
          && groups == old(groups) + [result.value]
    {
      if HasName(groups, name) {
        return Err(Conflict);
      }
      var id := Ids.NewId(set g | g in groups :: g.id);
      var g := Group(id, name);
      ghost var before := groups;
      groups := groups + [g];
      assert forall x :: x in before ==> x in groups;
      assert forall i :: 0 <= i < |before| ==> before[i] in before;
      result := Ok(g);
    }

    method GetGroupByName(name: string) returns (found: Option<Group>)
      ensures found.Some? ==> found.value in groups && found.value.name == name
      ensures found.None? <==> !HasName(groups, name)
    {
      if g :| g in groups && g.name == name {
        return Some(g);
      }
      found := None;
    }

    /** The distinguished group is refused; a deleted group's memberships go with it. */
    method DeleteGroup(id: string) returns (result: Result<()>)
      requires Valid()
      modifies this
      ensures Valid()
      ensures result == if id == INSTANCE_ADMINS_ID then Err(BadRequest)
        else if Has(old(groups), id) then Ok(()) else Err(NotFound)
      ensures result.Err? ==> groups == old(groups) && members == old(members)
      ensures result.Ok? ==>
        && (forall g :: g in groups <==> g in old(groups) && g.id != id)
        && forall m :: m in members <==> m in old(members) && m.group != id
    {
      if id == INSTANCE_ADMINS_ID {
        return Err(BadRequest);
      }
      if !Has(groups, id) {
        return Err(NotFound);
      }
      DeleteKeepsSound(groups, members, id);
      FilterMembers(OtherThan(id), groups);
      groups := Filter(OtherThan(id), groups);
      members := set m | m in members && m.group != id;
      result := Ok(());
    }

    method AddMember(group: string, member: string) returns (result: Result<()>)
      requires Valid()
      modifies this`members
      ensures Valid()
      ensures result == if Has(groups, group) then Ok(()) else Err(NotFound)
      ensures members == if result.Ok? then old(members) + {Member(group, member)} else old(members)
    {
      if !Has(groups, group) {
        return Err(NotFound);
      }
      members := members + {Member(group, member)};
      result := Ok(());
    }

    /** Removing who is not there, or from what is not there, succeeds. */
    method RemoveMember(group: string, member: string)
      requires Valid()
      modifies this`members
      ensures Valid() && members == old(members) - {Member(group, member)}
    {
      members := members - {Member(group, member)};
    }

    /** The names of a principal's groups, in order. */
    method MembershipsFor(member: string) returns (names: seq<string>)
      requires Valid()
      ensures Ascending(ByName, names)
      ensures forall n :: n in names <==>
        exists g :: g in groups && g.name == n && Member(g.id, member) in members
    {
      var joined := Filter(Joined(members, member), groups);
      names := Sort(ByName, Map(NameOf, joined));
      NamesAreAscending(groups, members, member, joined, names);
    }

    method IsInstanceAdmin(member: string) returns (admin: bool)
      requires Valid()
      ensures admin <==> Member(INSTANCE_ADMINS_ID, member) in members
    {
      var g := GetGroupByName(INSTANCE_ADMINS);
      if g.None? {
        return false;
      }
      AdminsAreOne(groups, members, g.value);
      admin := Member(g.value.id, member) in members;
    }
  }

  lemma FilterKeepsDistinct(p: Group -> bool, groups: seq<Group>)
    requires Distinct(groups)
    ensures Distinct(Filter(p, groups))
  {
    var id := (g: Group) => g.id;
    assert KeysDiffer(id, groups) && KeysDiffer(NameOf, groups);
    FilterKeepsKeys(p, id, groups);
    FilterKeepsKeys(p, NameOf, groups);
    var kept := Filter(p, groups);
    assert forall i :: 0 <= i < |kept| ==> id(kept[i]) == kept[i].id && NameOf(kept[i]) == kept[i].name;
  }

  function OtherThan(id: string): Group -> bool {
    (g: Group) => g.id != id
  }

  lemma DeleteKeepsSound(groups: seq<Group>, members: set<Member>, id: string)
    requires Sound(groups, members) && id != INSTANCE_ADMINS_ID
    ensures Sound(Filter(OtherThan(id), groups), set m | m in members && m.group != id)
  {
    var left := Filter(OtherThan(id), groups);
    FilterMembers(OtherThan(id), groups);
    FilterKeepsDistinct(OtherThan(id), groups);
    forall m | m in members && m.group != id
      ensures Has(left, m.group)
    {
      var g :| g in groups && g.id == m.group;
      assert g in left;
    }
    assert Group(INSTANCE_ADMINS_ID, INSTANCE_ADMINS) in left;
  }

  lemma AdminsAreOne(groups: seq<Group>, members: set<Member>, g: Group)
    requires Sound(groups, members) && g in groups && g.name == INSTANCE_ADMINS
    ensures g.id == INSTANCE_ADMINS_ID
  {
  }

  lemma NamesAreAscending(
    groups: seq<Group>, members: set<Member>, member: string, joined: seq<Group>,
    names: seq<string>)
    requires Sound(groups, members) && joined == Filter(Joined(members, member), groups)
    requires names == Sort(ByName, Map(NameOf, joined))
    ensures Ascending(ByName, names)
    ensures forall n :: n in names <==>
      exists g :: g in groups && g.name == n && Member(g.id, member) in members
  {
    var unsorted := Map(NameOf, joined);
    FilterKeepsDistinct(Joined(members, member), groups);
    FilterMembers(Joined(members, member), groups);
    SortMembers(ByName, unsorted);
    var all := set n | n in unsorted;
    NamesAreOrdered(all);
    SortAscending(ByName, unsorted, all);
    forall n
      ensures n in unsorted <==> exists g :: g in groups && g.name == n && Member(g.id, member) in members
    {
      NamedMember(joined, n);
    }
  }

  lemma NamedMember(joined: seq<Group>, n: string)
    ensures n in Map(NameOf, joined) <==> exists g :: g in joined && g.name == n
  {
    var names := Map(NameOf, joined);
    if n in names {
      var k :| 0 <= k < |names| && names[k] == n;
      assert joined[k] in joined && joined[k].name == n;
    }
    if g :| g in joined && g.name == n {
      var k :| 0 <= k < |joined| && joined[k] == g;
      assert names[k] == n;
    }
  }

  lemma NamesAreOrdered(all: set<string>)
    ensures Orders(ByName, all)
  {
    forall a, b, c
      ensures !ByName(a, a)
      ensures a != b ==> ByName(a, b) || ByName(b, a)
      ensures ByName(a, b) && ByName(b, c) ==> ByName(a, c)
    {
      Lexical.Irreflexive(a);
      Lexical.Total(a, b);
      if ByName(a, b) && ByName(b, c) {
        Lexical.Transitive(a, b, c);
      }
    }
  }

  /** The admin gate and the effective groups tell the same story. */
  lemma AdminIffNamed(groups: seq<Group>, members: set<Member>, member: string)
    requires Sound(groups, members)
    ensures Member(INSTANCE_ADMINS_ID, member) in members <==>
      exists g :: g in groups && g.name == INSTANCE_ADMINS && Member(g.id, member) in members
  {
    if g :| g in groups && g.name == INSTANCE_ADMINS && Member(g.id, member) in members {
      AdminsAreOne(groups, members, g);
    }
  }
}
