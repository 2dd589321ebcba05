/** The two-level tree of instance databases and the cache of open ones in front of it. */
module Tenant {
  import opened Outcomes
  import Tables

  /** Where an instance may live: at the top, or under a workspace. */
  datatype Place = Top(id: string) | Nested(parent: string, id: string)

  /** The instances directory: which directories there are, and which hold a database. A
      database file is told from a later one at the same place by its serial number. */
  datatype Tree = Tree(dirs: set<Place>, dbs: map<Place, nat>, made: nat)

  /** An open pool: the file it was opened on. */
  datatype Handle = Handle(place: Place, file: nat)

  datatype Services = Global | Instance(handle: Handle)

  datatype TenantError =
    InvalidId | NotProvisioned | ParentMissing | OpenFailed | NotOnDisk | RemoveFailed

  datatype Outcome<+T> = Done(value: T) | Refused(error: TenantError)

  /** How far opening a new database gets. */
  datatype Opening = Opens | FailsBeforeFile | FailsAfterFile

  /** How far removing a directory gets: through, or to an error after some of the directories
      and databases in it have gone. */
  datatype Removal = Removes | Stops(dirs: set<Place>, dbs: set<Place>)

  // ---------- The tree ----------

  /** Databases are in directories, children in their workspaces, and no file is two. */
  ghost predicate SoundTree(t: Tree) {
    && (forall p :: p in t.dbs ==> p in t.dirs && t.dbs[p] < t.made)
    && (forall p, c :: Nested(p, c) in t.dirs ==> Top(p) in t.dirs)
    && (forall p, q :: p in t.dbs && q in t.dbs && t.dbs[p] == t.dbs[q] ==> p == q)
  }

  /** Every nested database's workspace has one itself. */
  ghost predicate Parented(t: Tree) {
    forall p, c :: Nested(p, c) in t.dbs ==> Top(p) in t.dbs
  }

  /** What `locate_db` may return: the top-level database, else one of the nested ones, in
      the order the directory happens to be read. */
  predicate Locates(t: Tree, id: string, p: Place) {
    p in t.dbs && p.id == id && (p.Top? || Top(id) !in t.dbs)
  }

  predicate Under(top: Place, p: Place) {
    p == top || (top.Top? && p.Nested? && p.parent == top.id)
  }

  /** `remove_dir_all`. */
  function WithoutSubtree(t: Tree, target: Place): Tree {
    Tree(
      set p | p in t.dirs && !Under(target, p),
      map p | p in t.dbs && !Under(target, p) :: t.dbs[p],
      t.made)
  }

  /** Places that are not the directory removed from, nor in it, are as they were, and in it
      nothing is new. */
  ghost predicate KeepsOutside(t: Tree, t': Tree, target: Place) {
    && (forall p :: p in t'.dirs ==> p in t.dirs)
    && (forall p :: p in t'.dbs ==> p in t.dbs && t'.dbs[p] == t.dbs[p])
    && (forall p :: p in t.dirs && !Under(target, p) ==> p in t'.dirs)
    && (forall p :: p in t.dbs && !Under(target, p) ==> p in t'.dbs)
  }

  /** The same, stopped by an error: a directory goes only once it is empty, so the one to be
      removed stays, and so do those whose database stays. */
  function WithoutPart(t: Tree, target: Place, dirs: set<Place>, dbs: set<Place>): Tree {
    var left := map p | p in t.dbs && !(Under(target, p) && p in dbs) :: t.dbs[p];
    var there := set p | p in t.dirs && !(Under(target, p) && p != target && p in dirs && p !in left);
    Tree(there, left, t.made)
  }

  function AfterRemoval(t: Tree, target: Place, removal: Removal): Tree {
    match removal
    case Removes => WithoutSubtree(t, target)
    case Stops(dirs, dbs) => WithoutPart(t, target, dirs, dbs)
  }

  function WithDirectory(t: Tree, p: Place): Tree {
    t.(dirs := t.dirs + {p})
  }

  function WithDatabase(t: Tree, p: Place): Tree {
    t.(dirs := t.dirs + {p}, dbs := t.dbs[p := t.made], made := t.made + 1)
  }

  /** What a call may do to the tree. */
  datatype Call =
    | Leaves
    | MakesDirectory(place: Place)
    | MakesDatabase(place: Place)
    | RemovesFrom(target: Place, removal: Removal)

  /** A child is provisioned only where its workspace's database is. */
  predicate Possible(t: Tree, call: Call) {
    match call
    case Leaves => true
    case MakesDirectory(p) => p !in t.dbs && (p.Nested? ==> Top(p.parent) in t.dbs)
    case MakesDatabase(p) => p !in t.dbs && (p.Nested? ==> Top(p.parent) in t.dbs)
    case RemovesFrom(target, _) => target in t.dirs
  }

  function AfterCall(t: Tree, call: Call): Tree {
    match call
    case Leaves => t
    case MakesDirectory(p) => WithDirectory(t, p)
    case MakesDatabase(p) => WithDatabase(t, p)
    case RemovesFrom(target, removal) => AfterRemoval(t, target, removal)
  }

  ghost predicate Changed(t: Tree, t': Tree) {
    exists call :: Possible(t, call) && t' == AfterCall(t, call)
  }

  /** No database is lost or replaced, and none is new but the workspace's and its children's. */
  ghost predicate Grown(t: Tree, t': Tree, workspace: string, children: seq<string>) {
    && (forall p :: p in t.dbs ==> p in t'.dbs && t'.dbs[p] == t.dbs[p])
    && forall p :: p in t'.dbs && p !in t.dbs ==>
      WorkspaceOf(p) == workspace && (p.Nested? ==> p.id in children)
  }

  ghost predicate GrownBy(t: Tree, t': Tree, place: Place) {
    && (forall p :: p in t.dbs ==> p in t'.dbs && t'.dbs[p] == t.dbs[p])
    && forall p :: p in t'.dbs && p !in t.dbs ==> p == place
  }

  /** The workspace and its first `k` children are there. */
  ghost predicate Provisioned(t: Tree, t': Tree, workspace: string, children: seq<string>, k: nat) {
    && k <= |children| && Grown(t, t', workspace, children) && Top(workspace) in t'.dbs
    && forall j :: 0 <= j < k ==> Nested(workspace, children[j]) in t'.dbs
  }

  lemma OneMoreProvisioned(
    t: Tree, t': Tree, t'': Tree, workspace: string, children: seq<string>, k: nat)
    requires k < |children| && Provisioned(t, t', workspace, children, k)
    requires GrownBy(t', t'', Nested(workspace, children[k]))
    ensures Grown(t, t'', workspace, children)
    ensures Nested(workspace, children[k]) in t''.dbs ==> Provisioned(t, t'', workspace, children, k + 1)
  {
  }

  ghost predicate UniqueInstances(t: Tree) {
    forall p, q :: p in t.dbs && q in t.dbs && p.id == q.id ==> p == q
  }

  /** Every cached pool is open on a database that is there now. */
  ghost predicate CacheOnDisk(t: Tree, cache: map<string, Handle>) {
    forall id :: id in cache ==>
      && cache[id].place.id == id && cache[id].place in t.dbs
      && t.dbs[cache[id].place] == cache[id].file
  }

  /** The names found in a directory. */
  function Names(t: Tree, dir: Place): (names: set<string>)
    ensures forall x :: x in names <==> dir.Top? && Nested(dir.id, x) in t.dirs
  {
    set p | p in t.dirs && p.Nested? && dir == Top(p.parent) :: p.id
  }

  /** Evicting the target's id and the names in its directory leaves only pools that the removal
      does not touch, however far it gets. */
  lemma EvictionSuffices(
    t: Tree, cache: map<string, Handle>, target: Place, evicted: set<string>, removal: Removal)
    requires SoundTree(t) && CacheOnDisk(t, cache) && target.id in evicted
    requires forall p :: p in t.dirs && p.Nested? && target == Top(p.parent) ==> p.id in evicted
    ensures SoundTree(AfterRemoval(t, target, removal))
    ensures CacheOnDisk(AfterRemoval(t, target, removal), cache - evicted)
  {
  }

  class TenantPoolManager {
    const valid: string -> bool
    var tree: Tree
    var cache: map<string, Handle>

    ghost predicate Valid()
      reads this
    {
      SoundTree(tree) && CacheOnDisk(tree, cache)
    }

    constructor (valid: string -> bool)
      ensures Valid() && this.valid == valid && cache == map[] && tree == Tree({}, map[], 0)
    {
      this.valid := valid;
      tree, cache := Tree({}, map[], 0), map[];
    }

    method LocateDb(id: string) returns (found: Outcome<Place>)
      ensures found.Done? ==> Locates(tree, id, found.value)
      ensures found.Refused? ==> found.error == NotProvisioned && forall p :: !Locates(tree, id, p)
    {
      if Top(id) in tree.dbs {
        return Done(Top(id));
      }
      if p :| p in tree.dbs && p.Nested? && p.id == id {
        return Done(p);
      }
      found := Refused(NotProvisioned);
    }

    /** A known instance's services, from the cache or freshly opened. The tree is only read. */
    method GetServices(id: Option<string>, opens: bool) returns (result: Outcome<Services>)
      requires Valid()
      modifies this`cache
      ensures Valid()
      ensures id.None? ==> result == Done(Global) && cache == old(cache)
      ensures id.Some? && id.value in old(cache) ==>
        result == Done(Instance(old(cache)[id.value])) && cache == old(cache)
      ensures id.Some? && id.value !in old(cache) && !valid(id.value) ==>
        result == Refused(InvalidId) && cache == old(cache)
      ensures id.Some? && id.value !in old(cache) && valid(id.value) ==>
        match result
        case Done(services) =>
          && services.Instance? && Locates(tree, id.value, services.handle.place)
          && services.handle.file == tree.dbs[services.handle.place]
          && cache == old(cache)[id.value := services.handle]
        case Refused(e) =>
          && cache == old(cache)
          && (e == OpenFailed || (e == NotProvisioned && forall p :: !Locates(tree, id.value, p)))
      ensures opens ==> result != Refused(OpenFailed)
    {
      if id.None? {
        return Done(Global);
      }
      if id.value in cache {
        return Done(Instance(cache[id.value]));
      }
      if !valid(id.value) {
        return Refused(InvalidId);
      }
      var place := LocateDb(id.value);
      if place.Refused? {
        return Refused(place.error);
      }
      if !opens {
        return Refused(OpenFailed);
      }
      var handle := Handle(place.value, tree.dbs[place.value]);
      cache := cache[id.value := handle];
      result := Done(Instance(handle));
    }

    /** Creates the database, once; an existing one is left alone. */
    method ProvisionInstance(id: string, parent: Option<string>, opening: Opening)
      returns (result: Outcome<()>)
      requires Valid()
      modifies this`tree
      ensures Valid() && Changed(old(tree), tree) && (Parented(old(tree)) ==> Parented(tree))
      ensures
        var place := if parent.None? then Top(id) else Nested(parent.value, id);
        if !valid(id) || (parent.Some? && !valid(parent.value)) then
          result == Refused(InvalidId) && tree == old(tree)
        else if parent.Some? && Top(parent.value) !in old(tree).dbs then
          result == Refused(ParentMissing) && tree == old(tree)
        else if place in old(tree).dbs then result.Done? && tree == old(tree)
        else match opening
          case Opens => result.Done? && tree == WithDatabase(old(tree), place)
          case FailsBeforeFile =>
            result == Refused(OpenFailed) && tree == WithDirectory(old(tree), place)
          case FailsAfterFile =>
            result == Refused(OpenFailed) && tree == WithDatabase(old(tree), place)
      ensures
        var place := if parent.None? then Top(id) else Nested(parent.value, id);
        && (forall p :: p in tree.dirs <==>
          p in old(tree).dirs || (p == place && tree != old(tree)))
        && (forall p :: p in old(tree).dbs ==> p in tree.dbs && tree.dbs[p] == old(tree).dbs[p])
        && (forall p :: p in tree.dbs && p !in old(tree).dbs ==> p == place)
        && (result.Done? ==> place in tree.dbs)
    {
      assert Possible(tree, Leaves) && tree == AfterCall(tree, Leaves);
      if !valid(id) || (parent.Some? && !valid(parent.value)) {
        return Refused(InvalidId);
      }
      var place := if parent.None? then Top(id) else Nested(parent.value, id);
      if parent.Some? && Top(parent.value) !in tree.dbs {
        return Refused(ParentMissing);
      }
      if place in tree.dbs {
        return Done(());
      }
      assert Possible(tree, MakesDatabase(place)) && Possible(tree, MakesDirectory(place));
      match opening
      case Opens =>
        tree := AfterCall(tree, MakesDatabase(place));
        result := Done(());
      case FailsBeforeFile =>
        tree := AfterCall(tree, MakesDirectory(place));
        result := Refused(OpenFailed);
      case FailsAfterFile =>
        tree := AfterCall(tree, MakesDatabase(place));
        result := Refused(OpenFailed);
    }

    /** The directory goes with all in it, and every cached pool on something in it is evicted
        first: by the instance's id and by the names found in its directory. */
    method DeleteInstance(id: string, removal: Removal)
      returns (result: Outcome<()>, ghost target: Place)
      requires Valid()
      modifies this`tree, this`cache
      ensures Valid() && Changed(old(tree), tree)
      ensures KeepsOutside(old(tree), tree, target)
      ensures result.Done? ==> forall p :: Under(target, p) ==> p !in tree.dirs && p !in tree.dbs
      ensures !valid(id) ==> result == Refused(InvalidId)
      ensures valid(id) && (forall p :: p in old(tree).dirs ==> p.id != id) ==>
        result == Refused(NotOnDisk)
      ensures !valid(id) || (forall p :: p in old(tree).dirs ==> p.id != id) ==>
        tree == old(tree) && cache == old(cache)
      ensures valid(id) && (exists p :: p in old(tree).dirs && p.id == id) ==>
        && result == (if removal.Removes? then Done(()) else Refused(RemoveFailed))
        && target in old(tree).dirs && target.id == id
        && (target.Top? || Top(id) !in old(tree).dirs)
        && tree == AfterRemoval(old(tree), target, removal)
        && cache == old(cache) - ({id} + Names(old(tree), target))
    {
      target := Top(id);
      assert Possible(tree, Leaves) && tree == AfterCall(tree, Leaves);
      if !valid(id) {
        return Refused(InvalidId), target;
      }
      var dir := FindDirectory(id);
      if dir.Refused? {
        return Refused(dir.error), target;
      }
      target := dir.value;
      EvictionSuffices(tree, cache, dir.value, {id} + Names(tree, dir.value), removal);
      assert Possible(tree, RemovesFrom(dir.value, removal));
      cache := cache - ({id} + Names(tree, dir.value));
      tree := AfterCall(tree, RemovesFrom(dir.value, removal));
      result := if removal.Removes? then Done(()) else Refused(RemoveFailed);
    }

    /** The top-level directory of the id or else a nested one. */
    method FindDirectory(id: string) returns (found: Outcome<Place>)
      ensures found.Done? ==>
        && found.value in tree.dirs && found.value.id == id
        && (found.value.Top? || Top(id) !in tree.dirs)
      ensures found.Refused? ==> found.error == NotOnDisk && forall p :: p in tree.dirs ==> p.id != id
    {
      if Top(id) in tree.dirs {
        return Done(Top(id));
      }
      if p :| p in tree.dirs && p.Nested? && p.id == id {
        return Done(p);
      }
      found := Refused(NotOnDisk);
    }

    /** The same, told by the place. */
    method ProvisionAt(place: Place, opening: Opening) returns (result: Outcome<()>)
      requires Valid()
      modifies this`tree
      ensures Valid() && GrownBy(old(tree), tree, place)
      ensures result.Done? ==> place in tree.dbs
    {
      result := ProvisionInstance(
        place.id, if place.Top? then None else Some(place.parent), opening);
    }

    /** The workspace, then its children in order, up to the first that is refused.
        `openings(k)` is how opening the `k`-th of them goes. */
    method ProvisionWorkspaceTree(workspace: string, children: seq<string>, openings: nat -> Opening)
      returns (result: Outcome<()>)
      requires Valid()
      modifies this`tree
      ensures Valid()
      ensures Grown(old(tree), tree, workspace, children)
      ensures result.Done? ==> Top(workspace) in tree.dbs
      ensures result.Done? ==> forall c :: c in children ==> Nested(workspace, c) in tree.dbs
    {
      result := ProvisionAt(Top(workspace), openings(0));
      if result.Refused? {
        return;
      }
      for k := 0 to |children|
        invariant Valid() && Provisioned(old(tree), tree, workspace, children, k)
      {
        ghost var before := tree;
        result := ProvisionAt(Nested(workspace, children[k]), openings(k + 1));
        OneMoreProvisioned(old(tree), before, tree, workspace, children, k);
        if result.Refused? {
          return;
        }
      }
      result := Done(());
    }

    /** Every database once: each workspace's own, then those of its children. */
    method ListInstanceTree() returns (out: seq<Place>)
      requires Valid()
      ensures forall p :: p in out <==> p in tree.dbs
      ensures Tables.NoDuplicates(out)
    {
      out := [];
      var tops := set p | p in tree.dirs && p.Top?;
      while tops != {}
        invariant forall p :: p in tops ==> p in tree.dirs && p.Top?
        invariant forall p :: p in out <==> p in tree.dbs && Top(WorkspaceOf(p)) !in tops
        invariant Tables.NoDuplicates(out)
        decreases |tops|
      {
        var top :| top in tops;
        var listed := ListWorkspace(top.id);
        assert forall p :: p in listed ==> p !in out;
        Tables.NoDuplicatesAppend(out, listed);
        ghost var before := tops;
        tops := tops - {top};
        assert |tops| < |before|;
        out := out + listed;
      }
    }

    method ListWorkspace(id: string) returns (out: seq<Place>)
      requires Valid()
      ensures forall p :: p in out <==> p in tree.dbs && WorkspaceOf(p) == id
      ensures Tables.NoDuplicates(out)
    {
      out := if Top(id) in tree.dbs then [Top(id)] else [];
      var children := set p | p in tree.dirs && p.Nested? && p.parent == id;
      while children != {}
        invariant forall p :: p in children ==> p in tree.dirs && p.Nested? && p.parent == id
        invariant forall p :: p in out <==> p in tree.dbs && WorkspaceOf(p) == id && p !in children
        invariant Tables.NoDuplicates(out)
        decreases |children|
      {
        var child :| child in children;
        ghost var before := children;
        children := children - {child};
        assert |children| < |before|;
        if child in tree.dbs {
          out := out + [child];
        }
      }
    }
  }

  function WorkspaceOf(p: Place): string {
    if p.Top? then p.id else p.parent
  }

  // ---------- Cached and uncached lookup ----------

  /** A cached instance is the one an uncached lookup finds, whichever it may find, exactly if
      no database of the same id takes precedence over it: none at the top above a nested one,
      none nested beside it. */
  lemma CachedIsLocated(t: Tree, cache: map<string, Handle>, id: string)
    requires CacheOnDisk(t, cache) && id in cache
    ensures (forall p :: Locates(t, id, p) ==> p == cache[id].place) <==>
      if cache[id].place.Nested? then
        Top(id) !in t.dbs && forall p :: p in t.dbs && p.Nested? && p.id == id ==> p == cache[id].place
      else true
  {
    var place := cache[id].place;
    if place.Nested? {
      if Top(id) in t.dbs {
        assert Locates(t, id, Top(id));
      } else if p :| p in t.dbs && p.Nested? && p.id == id && p != place {
        assert Locates(t, id, p);
      }
    }
  }

  /** With ids unique in the tree, the cache changes nothing but the cost. */
  lemma CacheAgreesWithDisk(t: Tree, cache: map<string, Handle>, id: string, p: Place)
    requires CacheOnDisk(t, cache) && UniqueInstances(t) && id in cache
    ensures Locates(t, id, p) <==> p == cache[id].place
    ensures cache[id] == Handle(cache[id].place, t.dbs[cache[id].place])
  {
    assert Top(id) in t.dbs ==> Top(id) == cache[id].place;
  }

  /** Provisioning does not look for the id elsewhere: it keeps ids unique exactly if there
      was no database of that id. */
  lemma ProvisionKeepsUnique(t: Tree, p: Place)
    requires UniqueInstances(t) && p !in t.dbs
    ensures UniqueInstances(WithDatabase(t, p)) <==> forall q :: q in t.dbs ==> q.id != p.id
  {
    var t' := WithDatabase(t, p);
    if q :| q in t.dbs && q.id == p.id {
      assert q in t'.dbs && p in t'.dbs && q != p;
    }
  }

  // ---------- Runs of provisioning and deletion ----------

  /** A database is created under an id that another one has. */
  ghost predicate Reuses(t: Tree, t': Tree) {
    exists p, q :: p in t'.dbs && p !in t.dbs && q in t.dbs && q.id == p.id
  }

  ghost predicate Run(trees: seq<Tree>) {
    |trees| > 0 && forall i :: 0 <= i < |trees| - 1 ==> Changed(trees[i], trees[i + 1])
  }

  lemma ChangeKeepsUnique(t: Tree, t': Tree)
    requires UniqueInstances(t) && Changed(t, t')
    ensures UniqueInstances(t') <==> !Reuses(t, t')
  {
    var call :| Possible(t, call) && t' == AfterCall(t, call);
    if call.MakesDatabase? {
      ProvisionKeepsUnique(t, call.place);
      if !UniqueInstances(t') {
        var q :| q in t.dbs && q.id == call.place.id;
        assert call.place in t'.dbs;
      }
    }
  }

  /** From an empty tree, ids are unique throughout exactly if no call ever reuses one. */
  lemma {:induction false} UniqueThroughoutExactly(trees: seq<Tree>)
    requires Run(trees) && trees[0].dbs == map[]
    ensures (forall k :: 0 <= k < |trees| ==> UniqueInstances(trees[k])) <==>
      forall k :: 0 <= k < |trees| - 1 ==> !Reuses(trees[k], trees[k + 1])
    decreases |trees|
  {
    if |trees| > 1 {
      var front := trees[..|trees| - 1];
      var last := |trees| - 1;
      forall i | 0 <= i < |front| - 1
        ensures Changed(front[i], front[i + 1])
      {
        assert Changed(trees[i], trees[i + 1]);
      }
      UniqueThroughoutExactly(front);
      assert forall k :: 0 <= k < last ==> front[k] == trees[k];
      assert Changed(trees[last - 1], trees[last - 1 + 1]);
      if UniqueInstances(trees[last - 1]) {
        ChangeKeepsUnique(trees[last - 1], trees[last]);
      }
    }
  }

  /** The removal of a workspace stops after its own database has gone and before a child's
      has. */
  ghost predicate Orphans(t: Tree, call: Call) {
    && call.RemovesFrom? && call.removal.Stops? && call.target.Top? && call.target in call.removal.dbs
    && exists c :: Nested(call.target.id, c) in t.dbs && Nested(call.target.id, c) !in call.removal.dbs
  }

  /** Deletion leaves every nested database with its workspace's, exactly unless it stops so. */
  lemma DeleteKeepsParented(t: Tree, target: Place, removal: Removal)
    requires SoundTree(t) && Parented(t) && target in t.dirs
    ensures Parented(AfterRemoval(t, target, removal)) <==> !Orphans(t, RemovesFrom(target, removal))
  {
    var t' := AfterRemoval(t, target, removal);
    if removal.Stops? && target.Top? && target in removal.dbs {
      if c :| Nested(target.id, c) in t.dbs && Nested(target.id, c) !in removal.dbs {
        assert Nested(target.id, c) in t'.dbs && Top(target.id) !in t'.dbs;
      }
    }
  }

  lemma CallKeepsSound(t: Tree, call: Call)
    requires SoundTree(t) && Possible(t, call)
    ensures SoundTree(AfterCall(t, call))
  {
  }

  lemma CallKeepsParented(t: Tree, call: Call)
    requires SoundTree(t) && Parented(t) && Possible(t, call)
    ensures Parented(AfterCall(t, call)) <==> !Orphans(t, call)
  {
    if call.RemovesFrom? {
      DeleteKeepsParented(t, call.target, call.removal);
    }
  }

  /** The trees that a run of calls goes through. */
  ghost predicate Calls(trees: seq<Tree>, calls: seq<Call>) {
    && |trees| == |calls| + 1
    && forall i {:trigger calls[i]} :: 0 <= i < |calls| ==>
      Possible(trees[i], calls[i]) && trees[i + 1] == AfterCall(trees[i], calls[i])
  }

  lemma {:induction false} CallsKeepSound(trees: seq<Tree>, calls: seq<Call>, k: nat)
    requires Calls(trees, calls) && SoundTree(trees[0]) && k < |trees|
    ensures SoundTree(trees[k])
  {
    if k > 0 {
      CallsKeepSound(trees, calls, k - 1);
      CallKeepsSound(trees[k - 1], calls[k - 1]);
    }
  }

  /** Up to the `n`-th tree of a run, no workspace's database is missing exactly if no removal
      so far has stopped that way. */
  lemma {:induction false} ParentedUpTo(trees: seq<Tree>, calls: seq<Call>, n: nat)
    requires Calls(trees, calls) && SoundTree(trees[0]) && Parented(trees[0]) && n < |trees|
    ensures (forall k :: 0 <= k <= n ==> Parented(trees[k])) <==>
      forall k :: 0 <= k < n ==> !Orphans(trees[k], calls[k])
  {
    if n > 0 {
      CallsKeepSound(trees, calls, n - 1);
      if Parented(trees[n - 1]) {
        CallKeepsParented(trees[n - 1], calls[n - 1]);
      }
      ParentedUpTo(trees, calls, n - 1);
    }
  }

  /** Over every run from an empty tree. */
  lemma ParentedThroughoutExactly(trees: seq<Tree>, calls: seq<Call>)
    requires Calls(trees, calls) && trees[0] == Tree({}, map[], 0)
    ensures (forall k :: 0 <= k < |trees| ==> Parented(trees[k])) <==>
      forall k :: 0 <= k < |calls| ==> !Orphans(trees[k], calls[k])
  {
    ParentedUpTo(trees, calls, |calls|);
  }

  /** Deleting goes by directories, lookup by databases: with ids unique, the instance is gone
      afterwards exactly if the directory that was picked is the one with its database, or it
      had none. */
  lemma DeletedIsGone(t: Tree, target: Place)
    requires SoundTree(t) && Parented(t) && UniqueInstances(t) && target in t.dirs
    ensures (forall p :: !Locates(WithoutSubtree(t, target), target.id, p)) <==>
      target in t.dbs || forall p :: p in t.dbs ==> p.id != target.id
  {
    var t' := WithoutSubtree(t, target);
    if target !in t.dbs {
      if p :| p in t.dbs && p.id == target.id {
        if p.Nested? {
          assert Top(p.parent) in t.dbs;
        }
        assert p in t'.dbs && Locates(t', target.id, p);
      }
    }
  }

  // ---------- Trees on which the conditions fail ----------

  /** Three provisions from the empty tree reuse an id: the pool cached for the child is no
      longer what an uncached lookup finds. */
  lemma ReuseHappens(w: string, x: string, trees: seq<Tree>, cache: map<string, Handle>)
    requires w != x && |trees| == 4 && trees[0] == Tree({}, map[], 0)
    requires trees[1] == WithDatabase(trees[0], Top(w))
    requires trees[2] == WithDatabase(trees[1], Nested(w, x))
    requires trees[3] == WithDatabase(trees[2], Top(x))
    requires cache == map[x := Handle(Nested(w, x), 1)]
    ensures Run(trees) && Reuses(trees[2], trees[3]) && !UniqueInstances(trees[3])
    ensures CacheOnDisk(trees[2], cache) && CacheOnDisk(trees[3], cache)
    ensures Locates(trees[2], x, cache[x].place) && !Locates(trees[3], x, cache[x].place)
    ensures Locates(trees[3], x, Top(x))
  {
    assert Possible(trees[0], MakesDatabase(Top(w))) && Possible(trees[1], MakesDatabase(Nested(w, x)));
    assert Possible(trees[2], MakesDatabase(Top(x)));
    assert trees[1] == AfterCall(trees[0], MakesDatabase(Top(w)));
    assert trees[2] == AfterCall(trees[1], MakesDatabase(Nested(w, x)));
    assert trees[3] == AfterCall(trees[2], MakesDatabase(Top(x)));
    assert Top(x) in trees[3].dbs && Nested(w, x) in trees[2].dbs;
  }

  /** The removal of the workspace stops after its own database: the child has no parent. */
  lemma OrphanHappens(w: string, x: string, t: Tree, call: Call)
    requires t == WithDatabase(WithDatabase(Tree({}, map[], 0), Top(w)), Nested(w, x))
    requires call == RemovesFrom(Top(w), Stops({}, {Top(w)}))
    ensures SoundTree(t) && Parented(t) && Possible(t, call) && Orphans(t, call)
    ensures Nested(w, x) in AfterCall(t, call).dbs && Top(w) !in AfterCall(t, call).dbs
  {
  }

  /** Provisioning the child's id at the top failed after its directory: deleting the child
      removes that directory, and the child is still found. */
  lemma DeletedStays(w: string, x: string, t: Tree)
    requires w != x
    requires t == WithDirectory(
      WithDatabase(WithDatabase(Tree({}, map[], 0), Top(w)), Nested(w, x)), Top(x))
    ensures SoundTree(t) && Parented(t) && UniqueInstances(t) && Top(x) in t.dirs
    ensures Locates(WithoutSubtree(t, Top(x)), x, Nested(w, x))
  {
  }
}
