/** The principal a request acts as: its groups are the union of the token's groups and the
    groups stored in the instance. */
module Authz {
  import opened Outcomes
  import opened Tables
  import opened Policy
  import Lexical

  /** A claim of the token's `extra` map. */
  datatype Claim = Str(text: string) | Arr(items: seq<Claim>) | OtherClaim

  datatype Claims = Claims(
    sub: string, iss: string, preferredUsername: Option<string>, extra: map<string, Claim>)

  function Strings(items: seq<Claim>): seq<string> {
    if items == [] then []
    else
      var rest := Strings(items[1..]);
      if items[0].Str? then [items[0].text] + rest else rest
  }

  lemma {:induction false} StringsMember(items: seq<Claim>, g: string)
    ensures g in Strings(items) <==> Str(g) in items
  {
    if items != [] {
      StringsMember(items[1..], g);
      assert items == [items[0]] + items[1..];
    }
  }

  /** The token's groups are the strings among the items of its groups claim, if that is an
      array. */
  lemma TokenGroupsMember(claims: Claims, g: string)
    ensures g in TokenGroups(claims) <==>
      && "groups" in claims.extra && claims.extra["groups"].Arr?
      && Str(g) in claims.extra["groups"].items
  {
    if "groups" in claims.extra && claims.extra["groups"].Arr? {
      StringsMember(claims.extra["groups"].items, g);
    }
  }

  function TokenGroups(claims: Claims): seq<string> {
    if "groups" in claims.extra && claims.extra["groups"].Arr? then
      Strings(claims.extra["groups"].items)
    else []
  }

  // ---------- Sorted unions ----------

  predicate Before(a: string, b: string) {
    Lexical.Less(a, b)
  }

  /** `Vec::dedup`: of equal neighbours one stays. */
  function Dedup(s: seq<string>): seq<string> {
    if |s| <= 1 then s
    else if s[0] == s[1] then Dedup(s[1..])
    else [s[0]] + Dedup(s[1..])
  }

  function Merge(s: seq<string>, t: seq<string>): seq<string> {
    Dedup(Sort(Before, s + t))
  }

  ghost predicate Rising(s: seq<string>) {
    forall i, j :: 0 <= i < j < |s| ==> Lexical.AtMost(s[i], s[j])
  }

  lemma StringsAreOrdered(s: set<string>)
    ensures Orders(Before, s)
  {
    forall a, b, c
      ensures !Before(a, a)
      ensures a != b ==> Before(a, b) || Before(b, a)
      ensures Before(a, b) && Before(b, c) ==> Before(a, c)
    {
      Lexical.Irreflexive(a);
      Lexical.Total(a, b);
      if Before(a, b) && Before(b, c) {
        Lexical.Transitive(a, b, c);
      }
    }
  }

  lemma PrependRising(x: string, s: seq<string>)
    requires Rising(s) && (s != [] ==> Lexical.AtMost(x, s[0]))
    ensures Rising([x] + s)
  {
    var r := [x] + s;
    forall i, j | 0 <= i < j < |r|
      ensures Lexical.AtMost(r[i], r[j])
    {
      assert r[j] == s[j - 1];
      if i > 0 {
        assert r[i] == s[i - 1];
      } else if j > 1 {
        Lexical.AtMostTransitive(x, s[0], s[j - 1]);
      }
    }
  }

  lemma RisingTail(s: seq<string>)
    requires s != [] && Rising(s)
    ensures Rising(s[1..])
  {
    assert forall i :: 0 <= i < |s| - 1 ==> s[1..][i] == s[i + 1];
  }

  lemma {:induction false} InsertRising(x: string, s: seq<string>)
    requires Rising(s)
    ensures Rising(Insert(Before, x, s))
  {
    if s == [] || Before(x, s[0]) {
      PrependRising(x, s);
    } else {
      RisingTail(s);
      InsertRising(x, s[1..]);
      Lexical.Total(x, s[0]);
      assert |s| > 1 ==> Lexical.AtMost(s[0], s[1]);
      PrependRising(s[0], Insert(Before, x, s[1..]));
    }
  }

  lemma {:induction false} SortRising(s: seq<string>)
    ensures Rising(Sort(Before, s))
  {
    if s != [] {
      SortRising(s[1..]);
      InsertRising(s[0], Sort(Before, s[1..]));
    }
  }

  lemma {:induction false} DedupOfRising(s: seq<string>)
    requires Rising(s)
    ensures Ascending(Before, Dedup(s))
    ensures forall x :: x in Dedup(s) <==> x in s
  {
    if |s| > 1 {
      RisingTail(s);
      DedupOfRising(s[1..]);
      assert s == [s[0]] + s[1..] && s[1..][0] == s[1];
      if s[0] != s[1] {
        forall y | y in Dedup(s[1..])
          ensures Before(s[0], y)
        {
          var k :| 0 <= k < |s[1..]| && s[1..][k] == y;
          assert Lexical.AtMost(s[1], s[k + 1]) || k == 0;
          assert Before(s[0], s[1]);
          if s[1] != y {
            Lexical.Transitive(s[0], s[1], y);
          }
        }
        PrependAscending(Before, s[0], Dedup(s[1..]));
      }
    }
  }

  /** The merge is the union of its sources, sorted and without duplicates. */
  lemma MergeIsUnion(s: seq<string>, t: seq<string>)
    ensures Ascending(Before, Merge(s, t))
    ensures forall g :: g in Merge(s, t) <==> g in s || g in t
  {
    SortRising(s + t);
    DedupOfRising(Sort(Before, s + t));
    SortMembers(Before, s + t);
  }

  /** Merging the token's groups in once more changes nothing: the principal builder's merge
      is a no-op on what the resolver hands it. */
  lemma SecondMergeIsNoOp(token: seq<string>, native: seq<string>)
    ensures Merge(token, Merge(token, native)) == Merge(token, native)
  {
    var once, twice := Merge(token, native), Merge(token, Merge(token, native));
    MergeIsUnion(token, native);
    MergeIsUnion(token, once);
    var all := set g | g in once;
    StringsAreOrdered(all);
    AscendingUnique(Before, once, twice, all);
  }

  // ---------- Resolving and building ----------

  datatype ResolvedAuthz = ResolvedAuthz(effectiveGroups: seq<string>, adminBypass: bool)

  /** A failed read of the instance's groups (None) leaves the token's groups; a failed admin
      check leaves no bypass. */
  method ResolveInstanceAuthz(claims: Claims, native: Option<seq<string>>, isAdmin: Option<bool>)
    returns (resolved: ResolvedAuthz)
    ensures resolved.effectiveGroups == Merge(TokenGroups(claims), native.GetOr([]))
    ensures resolved.adminBypass <==> isAdmin == Some(true)
    ensures Ascending(Lexical.Less, resolved.effectiveGroups)
    ensures forall g :: g in resolved.effectiveGroups <==>
      || (native.Some? && g in native.value)
      || ("groups" in claims.extra && claims.extra["groups"].Arr? && Str(g) in claims.extra["groups"].items)
  {
    var groups := CollectGroups(claims);
    forall g
      ensures g in groups <==>
        && "groups" in claims.extra && claims.extra["groups"].Arr?
        && Str(g) in claims.extra["groups"].items
    {
      TokenGroupsMember(claims, g);
    }
    MergeIsUnion(groups, native.GetOr([]));
    groups := groups + native.GetOr([]);
    resolved := ResolvedAuthz(Dedup(Sort(Before, groups)), isAdmin.GetOr(false));
  }

  method CollectGroups(claims: Claims) returns (groups: seq<string>)
    ensures groups == TokenGroups(claims)
  {
    groups := [];
    if "groups" in claims.extra && claims.extra["groups"].Arr? {
      var items := claims.extra["groups"].items;
      for i := 0 to |items|
        invariant groups + Strings(items[i..]) == Strings(items)
      {
        assert items[i..][1..] == items[i + 1..];
        if items[i].Str? {
          groups := groups + [items[i].text];
        }
      }
    }
  }

  /** A string role, or the first string of an array of roles. */
  function TokenRole(claims: Claims): Option<string> {
    if "role" !in claims.extra then None
    else match claims.extra["role"]
      case Str(s) => Some(s)
      case Arr(items) => (var roles := Strings(items); if roles == [] then None else Some(roles[0]))
      case OtherClaim => None
  }

  function TrimStart(prefix: string, s: string): string
    requires prefix != ""
    decreases |s|
  {
    if prefix <= s then TrimStart(prefix, s[|prefix|..]) else s
  }

  function UntilSlash(s: string): string {
    if s == "" || s[0] == '/' then "" else [s[0]] + UntilSlash(s[1..])
  }

  function IssuerDomain(iss: string): string {
    UntilSlash(TrimStart("http://", TrimStart("https://", iss)))
  }

  function Spn(claims: Claims): Option<string> {
    if claims.preferredUsername.Some? && IssuerDomain(claims.iss) != "" then
      Some(claims.preferredUsername.value + "@" + IssuerDomain(claims.iss))
    else None
  }

  /** `user_to_cedar_principal_with_groups`. */
  function PrincipalOf(claims: Claims, groups: seq<string>): Principal {
    Principal(
      claims.sub, TokenRole(claims), (set g | g in Merge(TokenGroups(claims), groups)), Spn(claims))
  }

  /** The first string of an array. */
  ghost predicate FirstString(items: seq<Claim>, s: string) {
    exists k :: 0 <= k < |items| && items[k] == Str(s) && forall j :: 0 <= j < k ==> !items[j].Str?
  }

  lemma {:induction false} FirstOfStrings(items: seq<Claim>, s: string)
    ensures FirstString(items, s) <==> Strings(items) != [] && Strings(items)[0] == s
  {
    if items != [] {
      var rest := items[1..];
      FirstOfStrings(rest, s);
      if items[0].Str? {
        assert items[0] == Str(s) ==> FirstString(items, s);
      } else {
        if k :| 0 <= k < |rest| && rest[k] == Str(s) && forall j :: 0 <= j < k ==> !rest[j].Str? {
          assert items[k + 1] == Str(s);
          assert forall j :: 1 <= j < k + 1 ==> items[j] == rest[j - 1];
          assert FirstString(items, s);
        }
        if k :| 0 <= k < |items| && items[k] == Str(s) && forall j :: 0 <= j < k ==> !items[j].Str? {
          assert rest[k - 1] == Str(s);
          assert forall j :: 0 <= j < k - 1 ==> rest[j] == items[j + 1];
          assert FirstString(rest, s);
        }
      }
    }
  }

  /** The principal read off the token: its subject, the groups of either source, and as role a
      string or the first string of an array. */
  lemma PrincipalInBrief(claims: Claims, groups: seq<string>)
    ensures
      var p := PrincipalOf(claims, groups);
      && p.sub == claims.sub
      && (forall g :: g in p.groups <==>
        || g in groups
        || ("groups" in claims.extra && claims.extra["groups"].Arr?
          && Str(g) in claims.extra["groups"].items))
      && forall r :: p.role == Some(r) <==>
        && "role" in claims.extra
        && (claims.extra["role"] == Str(r)
          || (claims.extra["role"].Arr? && FirstString(claims.extra["role"].items, r)))
  {
    MergeIsUnion(TokenGroups(claims), groups);
    forall g
      ensures g in TokenGroups(claims) <==>
        && "groups" in claims.extra && claims.extra["groups"].Arr?
        && Str(g) in claims.extra["groups"].items
    {
      TokenGroupsMember(claims, g);
    }
    if "role" in claims.extra && claims.extra["role"].Arr? {
      forall r
        ensures FirstString(claims.extra["role"].items, r)
          <==> Strings(claims.extra["role"].items) != [] && Strings(claims.extra["role"].items)[0] == r
      {
        FirstOfStrings(claims.extra["role"].items, r);
      }
    }
  }

  lemma {:induction false} UntilSlashStops(d: string, path: string)
    requires '/' !in d && (path == "" || path[0] == '/')
    ensures UntilSlash(d + path) == d
  {
    if d == "" {
      assert d + path == path;
    } else {
      assert (d + path)[1..] == d[1..] + path;
      assert d[0] in d;
      UntilSlashStops(d[1..], path);
      assert d == [d[0]] + d[1..];
    }
  }

  lemma NotHttps(s: string)
    ensures !("https://" <= "http://" + s)
  {
    assert ("http://" + s)[4] == ':' && "https://"[4] == 's';
  }

  /** The service name: the user's name at the host of the issuer's address, if there are
      both. */
  lemma SpnInBrief(claims: Claims, scheme: string, host: string, path: string)
    requires claims.iss == scheme + (host + path)
    requires scheme == "" || scheme == "https://" || scheme == "http://"
    requires '/' !in host && (path == "" || path[0] == '/')
    requires !("https://" <= host + path) && !("http://" <= host + path)
    ensures Spn(claims) ==
      if claims.preferredUsername.Some? && host != "" then
        Some(claims.preferredUsername.value + "@" + host)
      else None
  {
    var rest := host + path;
    UntilSlashStops(host, path);
    assert claims.iss[|scheme|..] == rest;
    if scheme == "http://" {
      NotHttps(rest);
      assert TrimStart("https://", claims.iss) == claims.iss;
      assert TrimStart("http://", claims.iss) == TrimStart("http://", rest);
    } else {
      assert TrimStart("https://", claims.iss) == TrimStart("https://", rest) by {
        if scheme == "" {
          assert claims.iss == rest;
        }
      }
    }
    assert TrimStart("http://", rest) == rest && TrimStart("https://", rest) == rest;
    assert IssuerDomain(claims.iss) == host;
  }

  /** The principal a request is decided for. */
  function Resolved(claims: Claims, native: seq<string>): Principal {
    PrincipalOf(claims, Merge(TokenGroups(claims), native))
  }

  lemma ResolvedGroups(claims: Claims, native: seq<string>)
    ensures Resolved(claims, native).groups
      == (set g | g in TokenGroups(claims)) + (set g | g in native)
  {
    MergeIsUnion(TokenGroups(claims), native);
    MergeIsUnion(TokenGroups(claims), Merge(TokenGroups(claims), native));
  }

  /** Losing part of either source, down to all of it, allows nothing that the union of both
      does not. */
  lemma LosingGroupsGrantsNothing(
    claims: Claims, fewer: Claims, native: seq<string>, fewerNative: seq<string>,
    action: Action, r: Resource, c: Seats)
    requires fewer.sub == claims.sub && fewer.iss == claims.iss
    requires fewer.preferredUsername == claims.preferredUsername
    requires TokenRole(fewer) == TokenRole(claims)
    requires forall g :: g in TokenGroups(fewer) ==> g in TokenGroups(claims)
    requires forall g :: g in fewerNative ==> g in native
    ensures Allowed(Resolved(fewer, fewerNative), action, r, c) ==>
      Allowed(Resolved(claims, native), action, r, c)
  {
    ResolvedGroups(claims, native);
    ResolvedGroups(fewer, fewerNative);
    MoreGroupsAllowMore(Resolved(fewer, fewerNative), Resolved(claims, native), action, r, c);
  }
}
