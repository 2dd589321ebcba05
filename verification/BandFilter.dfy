/** Visibility filtering of a list of assets: evaluating the policies for every asset, and the
    batched form that evaluates them once per band key. */
module BandFilter {
  import opened Outcomes
  import opened Models
  import opened Tables
  import opened Policy
  import Ids
  import Lexical

  /** `asset_to_cedar_entity`: what of an asset the policies can see. */
  function EntityOf(a: AssetRow): Resource {
    Resource(
      Some(a.createdBy),
      if a.context.Some? then Some(a.context.value.visibility) else None,
      if a.context.Some? then Some(a.context.value.confidentiality) else None,
      if a.context.Some? && a.context.value.ownerGroups != [] then
        Some(set g | g in a.context.value.ownerGroups)
      else None,
      FirstTag(a.tags, "status"),
      FirstTag(a.tags, "asset_type"))
  }

  /** Assets without a context are grandfathered: no policy applies to them. */
  predicate Enforced(a: AssetRow) {
    a.context.Some?
  }

  /** Who asks for what; `builds` is false when the principal's or the action's identifier is
      refused, which makes every evaluation an error. */
  datatype Request = Request(principal: Principal, action: Action, builds: bool)

  /** `evaluate_permission`, with errors counted as denials; `idBuilds` says for which asset
      ids a resource identifier can be built. */
  predicate Verdict(idBuilds: string -> bool, q: Request, a: AssetRow) {
    q.builds && idBuilds(a.id) && Allowed(q.principal, q.action, EntityOf(a), NO_SEATS)
  }

  function Kept(idBuilds: string -> bool, q: Request): AssetRow -> bool {
    a => !Enforced(a) || Verdict(idBuilds, q, a)
  }

  /** `filter_by_permission`. */
  function FilterByPermission(idBuilds: string -> bool, q: Request, assets: seq<AssetRow>)
    : seq<AssetRow>
  {
    Filter(Kept(idBuilds, q), assets)
  }

  // ---------- Band keys ----------

  const SEPARATOR: char := '\U{0001}'

  function Join(parts: seq<string>): string {
    if parts == [] then ""
    else if |parts| == 1 then parts[0]
    else parts[0] + ([','] + Join(parts[1..]))
  }

  function SortStrings(s: seq<string>): seq<string> {
    Sort((a: string, b: string) => Lexical.Less(a, b), s)
  }

  /** The six fields of `cedar_band_key`, in order. */
  function BandFields(a: AssetRow): seq<string> {
    var context := a.context.GetOr(DEFAULT_CONTEXT);
    [a.createdBy, context.visibility, context.confidentiality,
      Join(SortStrings(context.ownerGroups)),
      FirstTag(a.tags, "status").GetOr(""), FirstTag(a.tags, "asset_type").GetOr("")]
  }

  function JoinFields(fields: seq<string>): string {
    if fields == [] then ""
    else if |fields| == 1 then fields[0]
    else fields[0] + ([SEPARATOR] + JoinFields(fields[1..]))
  }

  function BandKey(a: AssetRow): string {
    JoinFields(BandFields(a))
  }

  /** The key written out. */
  lemma BandKeyText(a: AssetRow)
    requires a.context.Some?
    ensures BandKey(a) ==
      a.createdBy + (['\U{0001}'] + (a.context.value.visibility + (['\U{0001}']
        + (a.context.value.confidentiality + (['\U{0001}']
        + (Join(SortStrings(a.context.value.ownerGroups)) + (['\U{0001}']
        + (FirstTag(a.tags, "status").GetOr("") + (['\U{0001}']
        + FirstTag(a.tags, "asset_type").GetOr(""))))))))))
  {
    var s := BandFields(a);
    assert s[1..][0] == s[1] && s[1..][1..] == s[2..];
    assert s[2..][0] == s[2] && s[2..][1..] == s[3..];
    assert s[3..][0] == s[3] && s[3..][1..] == s[4..];
    assert s[4..] == [s[4], s[5]] && s[4..][1..] == [s[5]];
    assert JoinFields(s[4..]) == s[4] + ([SEPARATOR] + s[5]);
    assert JoinFields(s[3..]) == s[3] + ([SEPARATOR] + JoinFields(s[4..]));
    assert JoinFields(s[2..]) == s[2] + ([SEPARATOR] + JoinFields(s[3..]));
    assert JoinFields(s[1..]) == s[1] + ([SEPARATOR] + JoinFields(s[2..]));
  }

  /** The first enforced asset of the list with a key. */
  function Representative(assets: seq<AssetRow>, key: string): Option<AssetRow> {
    if assets == [] then None
    else if Enforced(assets[0]) && BandKey(assets[0]) == key then Some(assets[0])
    else Representative(assets[1..], key)
  }

  predicate BandVerdict(
    idBuilds: string -> bool, q: Request, assets: seq<AssetRow>, a: AssetRow)
  {
    var first := Representative(assets, BandKey(a));
    first.Some? && Verdict(idBuilds, q, first.value)
  }

  function KeptByBand(idBuilds: string -> bool, q: Request, assets: seq<AssetRow>)
    : AssetRow -> bool
  {
    a => !Enforced(a) || BandVerdict(idBuilds, q, assets, a)
  }

  /** The keys of the enforced assets. */
  function Bands(assets: seq<AssetRow>): set<string> {
    set a | a in assets && Enforced(a) :: BandKey(a)
  }

  /** `filter_by_permission_batched`: each asset gets the verdict of the first asset with its
      key, and the policies are evaluated once per key. */
  method FilterByPermissionBatched(idBuilds: string -> bool, q: Request, assets: seq<AssetRow>)
    returns (kept: seq<AssetRow>, evaluations: nat)
    ensures kept == Filter(KeptByBand(idBuilds, q, assets), assets)
    ensures evaluations == |Bands(assets)|
    ensures forall a :: a in kept <==>
      && a in assets
      && (a.context.None? || LeaderServes(idBuilds, q, assets, BandKey(a)))
  {
    var verdicts: map<string, bool> := map[];
    evaluations := 0;
    for i := 0 to |assets|
      invariant VerdictsFor(idBuilds, q, assets, i, verdicts)
      invariant evaluations == |verdicts.Keys|
    {
      var a := assets[i];
      if !Enforced(a) {
        BandKnown(idBuilds, q, assets, i, verdicts);
        continue;
      }
      var key := BandKey(a);
      if key in verdicts {
        BandKnown(idBuilds, q, assets, i, verdicts);
        continue;
      }
      var verdict := Verdict(idBuilds, q, a);
      BandEvaluated(idBuilds, q, assets, i, verdicts);
      verdicts := verdicts[key := verdict];
      evaluations := evaluations + 1;
    }
    assert assets[..|assets|] == assets;
    kept := Filter(
      (a: AssetRow) => !Enforced(a) || (BandKey(a) in verdicts && verdicts[BandKey(a)]), assets);
    VerdictsApplied(idBuilds, q, assets, verdicts);
    KeptByLeaders(idBuilds, q, assets);
  }

  /** After `i` assets there is one verdict per band met, that of its first asset. */
  ghost predicate VerdictsFor(
    idBuilds: string -> bool, q: Request, assets: seq<AssetRow>, i: nat, verdicts: map<string, bool>)
  {
    && i <= |assets| && verdicts.Keys == Bands(assets[..i])
    && forall key :: key in verdicts ==>
      && Representative(assets, key).Some?
      && verdicts[key] == Verdict(idBuilds, q, Representative(assets, key).value)
  }

  lemma BandKnown(
    idBuilds: string -> bool, q: Request, assets: seq<AssetRow>, i: nat, verdicts: map<string, bool>)
    requires VerdictsFor(idBuilds, q, assets, i, verdicts) && i < |assets|
    requires Enforced(assets[i]) ==> BandKey(assets[i]) in verdicts
    ensures VerdictsFor(idBuilds, q, assets, i + 1, verdicts)
  {
    BandsOneMore(assets, i);
  }

  lemma BandEvaluated(
    idBuilds: string -> bool, q: Request, assets: seq<AssetRow>, i: nat, verdicts: map<string, bool>)
    requires VerdictsFor(idBuilds, q, assets, i, verdicts) && i < |assets|
    requires Enforced(assets[i]) && BandKey(assets[i]) !in verdicts
    ensures VerdictsFor(idBuilds, q, assets, i + 1,
      verdicts[BandKey(assets[i]) := Verdict(idBuilds, q, assets[i])])
  {
    var key, verdict := BandKey(assets[i]), Verdict(idBuilds, q, assets[i]);
    BandsOneMore(assets, i);
    FirstOfItsBand(assets, i);
    var verdicts' := verdicts[key := verdict];
    assert verdicts'.Keys == verdicts.Keys + {key};
    forall k | k in verdicts'
      ensures
        && Representative(assets, k).Some?
        && verdicts'[k] == Verdict(idBuilds, q, Representative(assets, k).value)
    {
      if k == key {
        assert Representative(assets, k).value == assets[i];
      }
    }
  }

  lemma VerdictsApplied(
    idBuilds: string -> bool, q: Request, assets: seq<AssetRow>, verdicts: map<string, bool>)
    requires VerdictsFor(idBuilds, q, assets, |assets|, verdicts)
    ensures
      Filter((a: AssetRow) => !Enforced(a) || (BandKey(a) in verdicts && verdicts[BandKey(a)]), assets)
        == Filter(KeptByBand(idBuilds, q, assets), assets)
  {
    var kept := (a: AssetRow) => !Enforced(a) || (BandKey(a) in verdicts && verdicts[BandKey(a)]);
    assert assets[..|assets|] == assets;
    forall a | a in assets
      ensures kept(a) == KeptByBand(idBuilds, q, assets)(a)
    {
      if Enforced(a) {
        assert BandKey(a) in Bands(assets);
      }
    }
    FilterAgrees(kept, KeptByBand(idBuilds, q, assets), assets);
  }

  lemma BandsOneMore(assets: seq<AssetRow>, i: nat)
    requires i < |assets|
    ensures Bands(assets[..i + 1])
      == Bands(assets[..i]) + (if Enforced(assets[i]) then {BandKey(assets[i])} else {})
  {
    assert assets[..i + 1] == assets[..i] + [assets[i]];
  }

  /** An asset whose key no earlier asset has represents its band. */
  lemma {:induction false} FirstOfItsBand(assets: seq<AssetRow>, i: nat)
    requires i < |assets| && Enforced(assets[i]) && BandKey(assets[i]) !in Bands(assets[..i])
    ensures Representative(assets, BandKey(assets[i])) == Some(assets[i])
  {
    if i > 0 {
      assert assets[..i] == [assets[0]] + assets[1..][..i - 1];
      FirstOfItsBand(assets[1..], i - 1);
    }
  }

  // ---------- What a verdict depends on ----------

  predicate InstanceType(a: AssetRow) {
    FirstTag(a.tags, "asset_type") == Some("instance-type")
  }

  predicate Open(a: AssetRow) {
    a.context.Some? && (a.context.value.visibility == "public" || a.context.value.visibility == "org")
  }

  function Team(a: AssetRow): set<string> {
    if a.context.Some? && a.context.value.visibility == "team" then
      set g | g in a.context.value.ownerGroups
    else {}
  }

  /** Two enforced assets on which the policies cannot differ, read off their fields. Nobody
      but an admin changes an instance type, so of those only viewing counts. */
  predicate SameView(a: AssetRow, b: AssetRow) {
    && (InstanceType(a) <==> InstanceType(b))
    && (Open(a) <==> Open(b))
    && (if InstanceType(a) then
          Open(a) || (Team(a) == Team(b)
            && (a.createdBy == b.createdBy || {a.createdBy, b.createdBy} <= Team(a)))
        else Team(a) == Team(b) && a.createdBy == b.createdBy)
  }

  predicate SameProfile(idBuilds: string -> bool, a: AssetRow, b: AssetRow) {
    && idBuilds(a.id) == idBuilds(b.id)
    && (idBuilds(a.id) ==> SameView(a, b))
  }

  predicate TeamMember(p: Principal, a: AssetRow) {
    Team(a) * p.groups != {} || p.sub in Team(a) || (p.spn.Some? && p.spn.value in Team(a))
  }

  /** What the policies decide, by these attributes. */
  lemma AllowedByView(p: Principal, action: Action, a: AssetRow)
    requires a.context.Some?
    ensures Allowed(p, action, EntityOf(a), NO_SEATS) <==>
      Admin(p) || match action
        case View => Open(a) || TeamMember(p, a) || a.createdBy == p.sub
        case Edit => !InstanceType(a) && (TeamMember(p, a) || a.createdBy == p.sub)
        case Delete => !InstanceType(a) && a.createdBy == p.sub
        case Create => !InstanceType(a)
        case Tag => !InstanceType(a)
        case Relate => true
        case ManageMembers => false
        case ManageWorkspaceAgents => false
  {
    var r := EntityOf(a);
    assert TeamMatch(p, r) <==> TeamMember(p, a) by {
      if a.context.value.ownerGroups == [] {
        assert Team(a) == {};
      } else {
        assert a.context.value.visibility == "team" ==> r.ownerGroups == Some(Team(a));
      }
    }
  }

  /** The caller is in the asset's team: by group, or listed as subject or service name. */
  ghost predicate InTeam(p: Principal, a: AssetRow)
    requires a.context.Some?
  {
    && a.context.value.visibility == "team"
    && exists g :: g in a.context.value.ownerGroups && (g in p.groups || g == p.sub || Some(g) == p.spn)
  }

  /** The policy set read off the fields of an asset that has a context. */
  ghost predicate Grants(p: Principal, action: Action, a: AssetRow)
    requires a.context.Some?
  {
    var plain := FirstTag(a.tags, "asset_type") != Some("instance-type");
    p.role == Some("admin") || match action
      case View =>
        || a.context.value.visibility == "public" || a.context.value.visibility == "org"
        || InTeam(p, a) || a.createdBy == p.sub
      case Edit => plain && (InTeam(p, a) || a.createdBy == p.sub)
      case Delete => plain && a.createdBy == p.sub
      case Create => plain
      case Tag => plain
      case Relate => true
      case ManageMembers => false
      case ManageWorkspaceAgents => false
  }

  /** The policy set reduced to what an asset with a context contributes to it. */
  lemma AllowedInBrief(p: Principal, action: Action, a: AssetRow)
    requires a.context.Some?
    ensures Allowed(p, action, EntityOf(a), NO_SEATS) <==> Grants(p, action, a)
  {
    AllowedByView(p, action, a);
    assert TeamMember(p, a) <==> InTeam(p, a) by {
      if g :| g in Team(a) * p.groups {
        assert g in a.context.value.ownerGroups;
      }
      if InTeam(p, a) {
        var g :| g in a.context.value.ownerGroups && (g in p.groups || g == p.sub || Some(g) == p.spn);
        assert g in Team(a);
        assert g in p.groups ==> g in Team(a) * p.groups;
      }
    }
  }

  /** Whether a request may be served with an asset: any may with one that has no context;
      with another, if the identifiers build and the policies grant it. */
  ghost predicate Serves(idBuilds: string -> bool, q: Request, a: AssetRow) {
    a.context.None? || (q.builds && idBuilds(a.id) && Grants(q.principal, q.action, a))
  }

  lemma SameViewSameVerdict(p: Principal, action: Action, a: AssetRow, b: AssetRow)
    requires a.context.Some? && b.context.Some? && SameView(a, b)
    ensures Allowed(p, action, EntityOf(a), NO_SEATS) <==> Allowed(p, action, EntityOf(b), NO_SEATS)
  {
    AllowedByView(p, action, a);
    AllowedByView(p, action, b);
  }

  /** Assets that differ in what the policies see can be told apart by somebody. */
  lemma DifferentViewDiffers(a: AssetRow, b: AssetRow) returns (p: Principal, action: Action)
    requires Enforced(a) && Enforced(b) && !SameView(a, b)
    ensures Allowed(p, action, EntityOf(a), NO_SEATS) != Allowed(p, action, EntityOf(b), NO_SEATS)
  {
    var stranger := Ids.UnusedExists(Team(a) + Team(b) + {a.createdBy, b.createdBy});
    p, action := Principal(stranger, None, {}, None), View;
    if InstanceType(a) != InstanceType(b) {
      action := Create;
    } else if Open(a) != Open(b) {
      action := View;
    } else if Team(a) != Team(b) {
      var g := OnlyInOne(Team(a), Team(b));
      p, action := p.(groups := {g}), if InstanceType(a) then View else Edit;
      assert g in Team(a) ==> g in Team(a) * {g};
      assert g in Team(b) ==> g in Team(b) * {g};
    } else if InstanceType(a) {
      p := p.(sub := if a.createdBy in Team(a) then b.createdBy else a.createdBy);
    } else {
      p, action := p.(sub := a.createdBy), Delete;
    }
    AllowedByView(p, action, a);
    AllowedByView(p, action, b);
  }

  // ---------- What the filters let through ----------

  /** The per-asset filter lets through the assets without a context and those with one that
      the policies grant. */
  lemma FilterInBrief(idBuilds: string -> bool, q: Request, assets: seq<AssetRow>, a: AssetRow)
    ensures a in FilterByPermission(idBuilds, q, assets) <==>
      && a in assets
      && (a.context.None? || (q.builds && idBuilds(a.id) && Grants(q.principal, q.action, a)))
  {
    FilterMember(Kept(idBuilds, q), assets, a);
    if a.context.Some? {
      AllowedInBrief(q.principal, q.action, a);
    }
  }

  /** The first asset of the list that has a context and this key. */
  ghost predicate Leads(assets: seq<AssetRow>, k: nat, key: string) {
    && k < |assets| && assets[k].context.Some? && BandKey(assets[k]) == key
    && forall j :: 0 <= j < k && assets[j].context.Some? ==> BandKey(assets[j]) != key
  }

  /** The request may be served with the leader of the band. */
  ghost predicate LeaderServes(idBuilds: string -> bool, q: Request, assets: seq<AssetRow>, key: string) {
    exists k: nat :: Leads(assets, k, key) && Serves(idBuilds, q, assets[k])
  }

  lemma {:induction false} RepresentativeLeads(assets: seq<AssetRow>, key: string)
    ensures
      match Representative(assets, key)
      case Some(r) => exists k: nat :: Leads(assets, k, key) && assets[k] == r
      case None => forall k :: 0 <= k < |assets| && assets[k].context.Some? ==> BandKey(assets[k]) != key
  {
    if assets == [] {
    } else if Enforced(assets[0]) && BandKey(assets[0]) == key {
      assert Leads(assets, 0, key);
    } else {
      var rest := assets[1..];
      RepresentativeLeads(rest, key);
      assert forall j :: 1 <= j < |assets| ==> assets[j] == rest[j - 1];
      if Representative(rest, key).Some? {
        var k: nat :| Leads(rest, k, key) && rest[k] == Representative(rest, key).value;
        assert Leads(assets, k + 1, key);
      }
    }
  }

  /** The batched filter lets an asset with a context through if the policies grant the leader
      of its band. */
  lemma KeptByLeader(idBuilds: string -> bool, q: Request, assets: seq<AssetRow>, a: AssetRow)
    ensures a in Filter(KeptByBand(idBuilds, q, assets), assets) <==>
      && a in assets
      && (a.context.None? || LeaderServes(idBuilds, q, assets, BandKey(a)))
  {
    FilterMember(KeptByBand(idBuilds, q, assets), assets, a);
    RepresentativeLeads(assets, BandKey(a));
    var first := Representative(assets, BandKey(a));
    if first.Some? {
      var k: nat :| Leads(assets, k, BandKey(a)) && assets[k] == first.value;
      AllowedInBrief(q.principal, q.action, assets[k]);
    }
  }

  lemma KeptByLeaders(idBuilds: string -> bool, q: Request, assets: seq<AssetRow>)
    ensures forall a :: a in Filter(KeptByBand(idBuilds, q, assets), assets) <==>
      && a in assets
      && (a.context.None? || LeaderServes(idBuilds, q, assets, BandKey(a)))
  {
    forall a
      ensures a in Filter(KeptByBand(idBuilds, q, assets), assets) <==>
        && a in assets
        && (a.context.None? || LeaderServes(idBuilds, q, assets, BandKey(a)))
    {
      KeptByLeader(idBuilds, q, assets, a);
    }
  }

  lemma OnlyInOne(s: set<string>, t: set<string>) returns (g: string)
    requires s != t
    ensures (g in s) != (g in t)
  {
    if x :| x in s && x !in t {
      g := x;
    } else {
      assert s <= t;
      g :| g in t && g !in s;
    }
  }

  // ---------- When the batched filter is the per-asset filter ----------

  /** Every enforced asset has the profile of the first asset of the list with its key. */
  predicate BandsAreUniform(idBuilds: string -> bool, assets: seq<AssetRow>) {
    forall a :: a in assets && Enforced(a) ==>
      var first := Representative(assets, BandKey(a));
      first.Some? && SameProfile(idBuilds, first.value, a)
  }

  lemma {:induction false} RepresentativeIsEnforced(assets: seq<AssetRow>, a: AssetRow)
    requires a in assets && Enforced(a)
    ensures
      var first := Representative(assets, BandKey(a));
      first.Some? && first.value in assets && Enforced(first.value)
      && BandKey(first.value) == BandKey(a)
  {
    if !(Enforced(assets[0]) && BandKey(assets[0]) == BandKey(a)) {
      assert assets == [assets[0]] + assets[1..];
      RepresentativeIsEnforced(assets[1..], a);
    }
  }

  lemma UniformBandsAgree(idBuilds: string -> bool, q: Request, assets: seq<AssetRow>)
    requires BandsAreUniform(idBuilds, assets)
    ensures Filter(KeptByBand(idBuilds, q, assets), assets) == FilterByPermission(idBuilds, q, assets)
  {
    forall a | a in assets
      ensures KeptByBand(idBuilds, q, assets)(a) == Kept(idBuilds, q)(a)
    {
      if Enforced(a) {
        RepresentativeIsEnforced(assets, a);
        var first := Representative(assets, BandKey(a)).value;
        if idBuilds(a.id) {
          SameViewSameVerdict(q.principal, q.action, first, a);
        }
      }
    }
    FilterAgrees(KeptByBand(idBuilds, q, assets), Kept(idBuilds, q), assets);
  }

  lemma UnevenBandDiffers(idBuilds: string -> bool, assets: seq<AssetRow>, a: AssetRow)
    returns (q: Request)
    requires a in assets && Enforced(a)
    requires !SameProfile(idBuilds, RepresentativeOf(assets, a), a)
    ensures Filter(KeptByBand(idBuilds, q, assets), assets) != FilterByPermission(idBuilds, q, assets)
  {
    RepresentativeIsEnforced(assets, a);
    var first := RepresentativeOf(assets, a);
    if idBuilds(first.id) != idBuilds(a.id) {
      q := Request(Principal("", Some("admin"), {}, None), View, true);
      AllowedByView(q.principal, View, first);
      AllowedByView(q.principal, View, a);
    } else {
      var p, action := DifferentViewDiffers(first, a);
      q := Request(p, action, true);
    }
    FilterMember(KeptByBand(idBuilds, q, assets), assets, a);
    FilterMember(Kept(idBuilds, q), assets, a);
  }

  function RepresentativeOf(assets: seq<AssetRow>, a: AssetRow): AssetRow {
    Representative(assets, BandKey(a)).GetOr(a)
  }

  /** The batched filter returns what the per-asset filter returns, for every request, exactly
      if each band of the list is uniform in what the policies can see. */
  lemma BatchedFilterIsExact(idBuilds: string -> bool, assets: seq<AssetRow>)
    ensures BandsAreUniform(idBuilds, assets) <==>
      forall q :: Filter(KeptByBand(idBuilds, q, assets), assets)
        == FilterByPermission(idBuilds, q, assets)
  {
    if BandsAreUniform(idBuilds, assets) {
      forall q
        ensures Filter(KeptByBand(idBuilds, q, assets), assets)
          == FilterByPermission(idBuilds, q, assets)
      {
        UniformBandsAgree(idBuilds, q, assets);
      }
    } else {
      var a :| a in assets && Enforced(a) && !(
        var first := Representative(assets, BandKey(a));
        first.Some? && SameProfile(idBuilds, first.value, a));
      RepresentativeIsEnforced(assets, a);
      var q := UnevenBandDiffers(idBuilds, assets, a);
    }
  }

  // ---------- A guard that makes keys tell bands apart ----------

  predicate Clean(s: string) {
    SEPARATOR !in s
  }

  /** No keyed field contains the separator, and group names are non-empty and free of
      commas. */
  predicate CleanBand(a: AssetRow) {
    && (forall k :: 0 <= k < |BandFields(a)| ==> Clean(BandFields(a)[k]))
    && (a.context.Some? ==> forall g :: g in a.context.value.ownerGroups ==> g != "" && ',' !in g)
  }

  lemma {:induction false} SplitUnique(c: char, a: string, s: string, b: string, t: string)
    requires c !in a && c !in b && a + ([c] + s) == b + ([c] + t)
    ensures a == b && s == t
  {
    var u, v := a + ([c] + s), b + ([c] + t);
    SeparatorFirst(c, a, s);
    SeparatorFirst(c, b, t);
    if a == "" {
      assert u[1..] == s && v[1..] == t;
    } else {
      assert u[1..] == a[1..] + ([c] + s) && v[1..] == b[1..] + ([c] + t);
      SplitUnique(c, a[1..], s, b[1..], t);
      assert a == [a[0]] + a[1..] && b == [b[0]] + b[1..];
    }
  }

  lemma SeparatorFirst(c: char, a: string, s: string)
    requires c !in a
    ensures (a + ([c] + s))[0] == c <==> a == ""
  {
    if a != "" {
      assert a[0] in a;
    }
  }

  lemma {:induction false} FieldsUnique(s: seq<string>, t: seq<string>)
    requires |s| == |t| && JoinFields(s) == JoinFields(t)
    requires forall k :: 0 <= k < |s| ==> Clean(s[k]) && Clean(t[k])
    ensures s == t
  {
    if |s| > 1 {
      SplitUnique(SEPARATOR, s[0], JoinFields(s[1..]), t[0], JoinFields(t[1..]));
      FieldsUnique(s[1..], t[1..]);
      assert s == [s[0]] + s[1..] && t == [t[0]] + t[1..];
    }
  }

  predicate Names(s: seq<string>) {
    forall k :: 0 <= k < |s| ==> s[k] != "" && ',' !in s[k]
  }

  lemma JoinHasComma(s: seq<string>)
    requires Names(s)
    ensures |s| >= 2 <==> ',' in Join(s)
    ensures s == [] <==> Join(s) == ""
  {
    if |s| >= 2 {
      assert Join(s)[|s[0]|] == ',';
    }
  }

  lemma {:induction false} JoinUnique(s: seq<string>, t: seq<string>)
    requires Names(s) && Names(t) && Join(s) == Join(t)
    ensures s == t
  {
    JoinHasComma(s);
    JoinHasComma(t);
    if |s| >= 2 {
      SplitUnique(',', s[0], Join(s[1..]), t[0], Join(t[1..]));
      JoinUnique(s[1..], t[1..]);
      assert s == [s[0]] + s[1..] && t == [t[0]] + t[1..];
    }
  }

  lemma SortedNames(s: seq<string>)
    requires forall g :: g in s ==> g != "" && ',' !in g
    ensures Names(SortStrings(s))
    ensures forall g :: g in SortStrings(s) <==> g in s
  {
    var before := (a: string, b: string) => Lexical.Less(a, b);
    forall g
      ensures g in SortStrings(s) <==> g in s
    {
      SortMember(before, s, g);
    }
    forall k | 0 <= k < |SortStrings(s)|
      ensures SortStrings(s)[k] != "" && ',' !in SortStrings(s)[k]
    {
      assert SortStrings(s)[k] in SortStrings(s);
    }
  }

  /** On clean bands the key determines everything the policies see. */
  lemma CleanKeysDetermineViews(a: AssetRow, b: AssetRow)
    requires Enforced(a) && Enforced(b) && CleanBand(a) && CleanBand(b)
    requires BandKey(a) == BandKey(b)
    ensures SameView(a, b)
  {
    var s, t := BandFields(a), BandFields(b);
    FieldsUnique(s, t);
    assert s[0] == t[0] && s[1] == t[1] && s[3] == t[3] && s[5] == t[5];
    var g, h := a.context.value.ownerGroups, b.context.value.ownerGroups;
    SortedNames(g);
    SortedNames(h);
    JoinUnique(SortStrings(g), SortStrings(h));
    assert (set x | x in g) == (set x | x in h);
    assert InstanceType(a) <==> s[5] == "instance-type";
    assert InstanceType(b) <==> t[5] == "instance-type";
  }

  /** With clean bands and resource identifiers that build for all assets or for none, the
      batched filter is the per-asset filter: same assets, same order. */
  lemma CleanBandsAgree(idBuilds: string -> bool, q: Request, assets: seq<AssetRow>)
    requires forall a :: a in assets && Enforced(a) ==> CleanBand(a)
    requires forall a, b :: a in assets && b in assets ==> idBuilds(a.id) == idBuilds(b.id)
    ensures Filter(KeptByBand(idBuilds, q, assets), assets) == FilterByPermission(idBuilds, q, assets)
  {
    forall a | a in assets && Enforced(a)
      ensures
        var first := Representative(assets, BandKey(a));
        first.Some? && SameProfile(idBuilds, first.value, a)
    {
      RepresentativeIsEnforced(assets, a);
      CleanKeysDetermineViews(Representative(assets, BandKey(a)).value, a);
    }
    UniformBandsAgree(idBuilds, q, assets);
  }

  function Banded(id: string, groups: seq<string>): AssetRow {
    AssetRow(id, "", None, "", "", "creator", None, Some(AuthContext("team", groups, "")), [], map[])
  }

  /** Without the guard the filters can differ: a group name containing a comma and two groups
      make the same key, so a member of one of the two loses sight of its asset. */
  lemma CommaJoinsBands()
    ensures
      var assets := [Banded("1", ["a,b"]), Banded("2", ["a", "b"])];
      var q := Request(Principal("u", None, {"a"}, None), View, true);
      var builds := (id: string) => true;
      && Filter(KeptByBand(builds, q, assets), assets) == []
      && FilterByPermission(builds, q, assets) == [assets[1]]
  {
    var x, y := Banded("1", ["a,b"]), Banded("2", ["a", "b"]);
    var assets := [x, y];
    var q := Request(Principal("u", None, {"a"}, None), View, true);
    var builds := (id: string) => true;
    CommaJoinsKeys();
    OnlySecondSeen(builds, q, x, y);
    assert Representative(assets, BandKey(x)) == Some(x);
    assert assets[1..] == [y] && [y][1..] == [];
  }

  lemma OnlySecondSeen(builds: string -> bool, q: Request, x: AssetRow, y: AssetRow)
    requires x == Banded("1", ["a,b"]) && y == Banded("2", ["a", "b"])
    requires q == Request(Principal("u", None, {"a"}, None), View, true)
    requires builds("1") && builds("2")
    ensures !Verdict(builds, q, x) && Verdict(builds, q, y)
  {
    AllowedByView(q.principal, View, x);
    AllowedByView(q.principal, View, y);
    assert x.context.value.ownerGroups[0] == "a,b";
    assert "a" in y.context.value.ownerGroups by { assert y.context.value.ownerGroups[0] == "a"; }
    assert Team(x) == {"a,b"};
    assert "a" in Team(y) * {"a"};
    assert "a,b" != "a" && "a,b" != "u" by { assert |"a,b"| == 3; }
  }

  lemma CommaJoinsKeys()
    ensures BandKey(Banded("1", ["a,b"])) == BandKey(Banded("2", ["a", "b"]))
  {
    var before := (a: string, b: string) => Lexical.Less(a, b);
    assert SortStrings(["a,b"]) == ["a,b"];
    assert ["a", "b"][1..] == ["b"] && ["b"][1..] == [];
    assert Sort(before, ["b"]) == ["b"];
    assert Lexical.Less("a", "b");
    assert SortStrings(["a", "b"]) == ["a", "b"];
    assert Join(["a", "b"]) == "a" + ([','] + "b");
    assert Join(["a", "b"]) == "a,b";
    assert BandFields(Banded("1", ["a,b"])) == BandFields(Banded("2", ["a", "b"]));
  }
}
