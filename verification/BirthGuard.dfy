/** The guard on new assets' contexts: no asset is born so that nobody but its creator and the
    admins can see it, unless that was asked for or there is nobody to show it to. */
module BirthGuard {
  import opened Outcomes
  import opened Models
  import opened Policy
  import BandFilter
  import Ids

  /** The context a new asset gets, given the one asked for and the caller's groups. */
  function Guarded(requested: Option<AuthContext>, callerGroups: seq<string>): AuthContext {
    var c := requested.GetOr(DEFAULT_CONTEXT);
    if (c.visibility == "" || c.visibility == "team") && c.ownerGroups == [] then
      if callerGroups == [] then c.(visibility := "private")
      else c.(visibility := "team", ownerGroups := callerGroups)
    else if c.visibility == "" then c.(visibility := "team")
    else c
  }

  method GuardBirthAuthContext(requested: Option<AuthContext>, callerGroups: seq<string>)
    returns (context: AuthContext)
    ensures context == Guarded(requested, callerGroups)
    ensures
      var (visibility, groups, confidentiality) :=
        if requested.Some? then
          (requested.value.visibility, requested.value.ownerGroups, requested.value.confidentiality)
        else ("", [], "");
      if visibility != "" && visibility != "team" then
        context == AuthContext(visibility, groups, confidentiality)
      else if groups != [] then context == AuthContext("team", groups, confidentiality)
      else if callerGroups != [] then context == AuthContext("team", callerGroups, confidentiality)
      else context == AuthContext("private", [], confidentiality)
  {
    context := requested.GetOr(DEFAULT_CONTEXT);
    if context.visibility == "" {
      if context.ownerGroups != [] {
        context := context.(visibility := "team");
      } else if callerGroups != [] {
        context := context.(visibility := "team");
        context := context.(ownerGroups := callerGroups);
      } else {
        context := context.(visibility := "private");
      }
    } else if context.visibility == "team" && context.ownerGroups == [] {
      if callerGroups != [] {
        context := context.(ownerGroups := callerGroups);
      } else {
        context := context.(visibility := "private");
      }
    }
  }

  /** A context that has passed the guard passes it unchanged, whoever the caller. */
  lemma GuardOnce(requested: Option<AuthContext>, groups: seq<string>, others: seq<string>)
    ensures Guarded(Some(Guarded(requested, groups)), others) == Guarded(requested, groups)
  {
  }

  /** Somebody who is neither an admin nor the creator may view the asset. */
  ghost predicate SharedWithSomebody(a: AssetRow) {
    exists p :: !Admin(p) && p.sub != a.createdBy && Allowed(p, View, BandFilter.EntityOf(a), NO_SEATS)
  }

  /** An asset born through the guard is shared with somebody exactly if it is public, in the
      organization, or in a team: never by accident with nobody. */
  lemma BornShared(a: AssetRow, requested: Option<AuthContext>, callerGroups: seq<string>)
    requires a.context == Some(Guarded(requested, callerGroups))
    ensures SharedWithSomebody(a) <==> a.context.value.visibility in {"public", "org", "team"}
    ensures a.context.value.visibility != ""
  {
    var c := a.context.value;
    var stranger := Ids.UnusedExists({a.createdBy});
    if c.visibility == "public" || c.visibility == "org" {
      var p := Principal(stranger, None, {}, None);
      BandFilter.AllowedInBrief(p, View, a);
      assert SharedWithSomebody(a);
    } else if c.visibility == "team" {
      var p := Principal(stranger, None, {c.ownerGroups[0]}, None);
      TeamViews(a, p, c.ownerGroups[0]);
      assert SharedWithSomebody(a);
    } else {
      forall p | !Admin(p) && p.sub != a.createdBy
        ensures !Allowed(p, View, BandFilter.EntityOf(a), NO_SEATS)
      {
        BandFilter.AllowedInBrief(p, View, a);
      }
    }
  }

  predicate AsksForNothing(requested: Option<AuthContext>) {
    var c := requested.GetOr(DEFAULT_CONTEXT);
    c.visibility == "" && c.ownerGroups == []
  }

  /** If nothing was asked for, whoever shares a group with the creator may view the asset. */
  lemma CohortViews(
    a: AssetRow, requested: Option<AuthContext>, callerGroups: seq<string>, p: Principal, g: string)
    requires a.context == Some(Guarded(requested, callerGroups)) && AsksForNothing(requested)
    requires g in callerGroups && g in p.groups
    ensures Allowed(p, View, BandFilter.EntityOf(a), NO_SEATS)
  {
    TeamViews(a, p, g);
  }

  lemma TeamViews(a: AssetRow, p: Principal, g: string)
    requires a.context.Some? && a.context.value.visibility == "team"
    requires g in a.context.value.ownerGroups && g in p.groups
    ensures Allowed(p, View, BandFilter.EntityOf(a), NO_SEATS)
  {
    BandFilter.AllowedInBrief(p, View, a);
    assert BandFilter.InTeam(p, a);
  }
}
