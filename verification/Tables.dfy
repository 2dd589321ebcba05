/** The parts of SQL the repositories lean on: a table is the sequence of its rows in
    insertion order, WHERE is a filter, ORDER BY a sort, LIMIT a prefix. */
module Tables {
  import opened Outcomes
  import Arithmetic

  function Filter<T>(p: T -> bool, s: seq<T>): (r: seq<T>)
    ensures |r| <= |s|
  {
    if s == [] then []
    else (if p(s[0]) then [s[0]] else []) + Filter(p, s[1..])
  }

  function Map<T, U>(f: T -> U, s: seq<T>): (r: seq<U>)
    ensures |r| == |s|
    ensures forall i :: 0 <= i < |s| ==> r[i] == f(s[i])
  {
    if s == [] then [] else [f(s[0])] + Map(f, s[1..])
  }

  function Take<T>(n: nat, s: seq<T>): (r: seq<T>)
    ensures |r| <= n
  {
    if |s| <= n then s else s[..n]
  }

  function Flatten<T>(parts: seq<seq<T>>): seq<T> {
    if parts == [] then [] else parts[0] + Flatten(parts[1..])
  }

  ghost predicate NoDuplicates<T>(s: seq<T>) {
    forall i, j :: 0 <= i < j < |s| ==> s[i] != s[j]
  }

  lemma NoDuplicatesAppend<T>(s: seq<T>, t: seq<T>)
    requires NoDuplicates(s) && NoDuplicates(t)
    requires forall x :: x in t ==> x !in s
    ensures NoDuplicates(s + t)
  {
    var r := s + t;
    forall i, j | 0 <= i < j < |r|
      ensures r[i] != r[j]
    {
      if i < |s| <= j {
        assert r[i] in s && r[j] == t[j - |s|] && r[j] in t;
      }
    }
  }

  lemma {:induction false} SizeOfDistinct<T>(s: seq<T>)
    requires NoDuplicates(s)
    ensures |set x | x in s| == |s|
  {
    if s == [] {
      assert (set x | x in s) == {};
    } else {
      assert s == [s[0]] + s[1..];
      assert forall j :: 1 <= j < |s| ==> s[j] == s[1..][j - 1];
      SizeOfDistinct(s[1..]);
      assert (set x | x in s) == {s[0]} + set x | x in s[1..];
    }
  }

  // ---------- WHERE ----------

  lemma {:induction false} FilterMembers<T>(p: T -> bool, s: seq<T>)
    ensures forall x :: x in Filter(p, s) <==> x in s && p(x)
  {
    if s != [] {
      FilterMembers(p, s[1..]);
      assert s == [s[0]] + s[1..];
    }
  }

  lemma FilterMember<T>(p: T -> bool, s: seq<T>, x: T)
    ensures x in Filter(p, s) <==> x in s && p(x)
  {
    FilterMembers(p, s);
  }

  lemma {:induction false} FilterAppend<T>(p: T -> bool, s: seq<T>, t: seq<T>)
    ensures Filter(p, s + t) == Filter(p, s) + Filter(p, t)
  {
    if s == [] {
      assert s + t == t;
    } else {
      assert (s + t)[1..] == s[1..] + t;
      FilterAppend(p, s[1..], t);
      var head := if p(s[0]) then [s[0]] else [];
      assert head + (Filter(p, s[1..]) + Filter(p, t)) == (head + Filter(p, s[1..])) + Filter(p, t);
    }
  }

  /** A row the condition leaves out changes nothing. */
  lemma FilterSkipsLast<T>(p: T -> bool, s: seq<T>, x: T)
    requires !p(x)
    ensures Filter(p, s + [x]) == Filter(p, s)
  {
    FilterAppend(p, s, [x]);
    assert Filter(p, [x]) == [];
    assert Filter(p, s) + [] == Filter(p, s);
  }

  lemma {:induction false} FilterNoDuplicates<T>(p: T -> bool, s: seq<T>)
    requires NoDuplicates(s)
    ensures NoDuplicates(Filter(p, s))
  {
    if s != [] {
      FilterNoDuplicates(p, s[1..]);
      FilterMembers(p, s[1..]);
      assert forall j :: 1 <= j < |s| ==> s[1..][j - 1] == s[j];
    }
  }

  /** Of a table without repeats, as many rows are selected as there are. */
  lemma FilterSize<T>(p: T -> bool, s: seq<T>, selected: set<T>)
    requires NoDuplicates(s) && forall x :: x in selected <==> x in s && p(x)
    ensures |Filter(p, s)| == |selected|
  {
    FilterNoDuplicates(p, s);
    SizeOfDistinct(Filter(p, s));
    var kept := set x | x in Filter(p, s);
    forall x | x in kept
      ensures x in selected
    {
      FilterMember(p, s, x);
    }
    forall x | x in selected
      ensures x in kept
    {
      FilterMember(p, s, x);
    }
    assert kept <= selected;
    assert selected <= kept;
    assert kept == selected;
  }

  function Both<T>(p: T -> bool, q: T -> bool): T -> bool {
    x => p(x) && q(x)
  }

  lemma {:induction false} FilterTwice<T>(p: T -> bool, q: T -> bool, s: seq<T>)
    ensures Filter(q, Filter(p, s)) == Filter(Both(p, q), s)
  {
    if s != [] {
      FilterTwice(p, q, s[1..]);
      var rest := Filter(p, s[1..]);
      assert ([s[0]] + rest)[1..] == rest;
      assert [] + rest == rest;
    }
  }

  ghost predicate KeysDiffer<T, K>(key: T -> K, s: seq<T>) {
    forall i, j :: 0 <= i < j < |s| ==> key(s[i]) != key(s[j])
  }

  /** A column without repeats has none in a part of the table. */
  lemma {:induction false} FilterKeepsKeys<T, K>(p: T -> bool, key: T -> K, s: seq<T>)
    requires KeysDiffer(key, s)
    ensures KeysDiffer(key, Filter(p, s))
  {
    if s != [] {
      var rest := s[1..];
      assert forall i :: 0 <= i < |rest| ==> rest[i] == s[i + 1];
      FilterKeepsKeys(p, key, rest);
      forall y | y in Filter(p, rest)
        ensures key(s[0]) != key(y)
      {
        FilterMember(p, rest, y);
        var i :| 0 <= i < |rest| && rest[i] == y;
        assert key(s[0]) != key(s[i + 1]);
      }
      PrependKeepsKeys(key, s[0], Filter(p, rest));
    }
  }

  lemma PrependKeepsKeys<T, K>(key: T -> K, x: T, s: seq<T>)
    requires KeysDiffer(key, s) && forall y :: y in s ==> key(x) != key(y)
    ensures KeysDiffer(key, [x] + s)
  {
    var t := [x] + s;
    assert forall j :: 1 <= j < |t| ==> t[j] == s[j - 1] && t[j] in s;
  }

  /** Two conditions that agree on the rows select the same rows. */
  lemma {:induction false} FilterAgrees<T>(p: T -> bool, q: T -> bool, s: seq<T>)
    requires forall x :: x in s ==> p(x) == q(x)
    ensures Filter(p, s) == Filter(q, s)
  {
    if s != [] {
      assert s[0] in s;
      FilterAgrees(p, q, s[1..]);
    }
  }

  lemma {:induction false} FilterAll<T>(p: T -> bool, s: seq<T>)
    requires forall x :: x in s ==> p(x)
    ensures Filter(p, s) == s
  {
    if s != [] {
      FilterAll(p, s[1..]);
    }
  }

  // ---------- ORDER BY ----------

  function Insert<T>(before: (T, T) -> bool, x: T, s: seq<T>): (r: seq<T>)
    ensures |r| == |s| + 1
  {
    if s == [] || before(x, s[0]) then [x] + s else [s[0]] + Insert(before, x, s[1..])
  }

  function Sort<T>(before: (T, T) -> bool, s: seq<T>): (r: seq<T>)
    ensures |r| == |s|
  {
    if s == [] then [] else Insert(before, s[0], Sort(before, s[1..]))
  }

  /** `before` is a strict total order on `rows`. */
  ghost predicate Orders<T>(before: (T, T) -> bool, rows: set<T>) {
    && (forall x :: x in rows ==> !before(x, x))
    && (forall x, y :: x in rows && y in rows && x != y ==> before(x, y) || before(y, x))
    && (forall x, y, z :: x in rows && y in rows && z in rows && before(x, y) && before(y, z) ==>
      before(x, z))
  }

  ghost predicate Ascending<T>(before: (T, T) -> bool, s: seq<T>) {
    forall i, j :: 0 <= i < j < |s| ==> before(s[i], s[j])
  }

  ghost predicate Within<T>(s: seq<T>, rows: set<T>) {
    forall x :: x in s ==> x in rows
  }

  lemma {:induction false} InsertMembers<T>(before: (T, T) -> bool, x: T, s: seq<T>)
    ensures forall y :: y in Insert(before, x, s) <==> y == x || y in s
  {
    if s != [] && !before(x, s[0]) {
      InsertMembers(before, x, s[1..]);
      assert s == [s[0]] + s[1..];
    }
  }

  lemma {:induction false} SortMembers<T>(before: (T, T) -> bool, s: seq<T>)
    ensures forall y :: y in Sort(before, s) <==> y in s
  {
    if s != [] {
      SortMembers(before, s[1..]);
      InsertMembers(before, s[0], Sort(before, s[1..]));
      assert s == [s[0]] + s[1..];
    }
  }

  lemma InsertMember<T>(before: (T, T) -> bool, x: T, s: seq<T>, y: T)
    ensures y in Insert(before, x, s) <==> y == x || y in s
  {
    InsertMembers(before, x, s);
  }

  lemma SortMember<T>(before: (T, T) -> bool, s: seq<T>, y: T)
    ensures y in Sort(before, s) <==> y in s
  {
    SortMembers(before, s);
  }

  lemma PrependAscending<T>(before: (T, T) -> bool, x: T, s: seq<T>)
    requires Ascending(before, s) && forall y :: y in s ==> before(x, y)
    ensures Ascending(before, [x] + s)
  {
    var r := [x] + s;
    forall i, j | 0 <= i < j < |r|
      ensures before(r[i], r[j])
    {
      assert r[j] == s[j - 1] && r[j] in s;
      if i > 0 {
        assert r[i] == s[i - 1];
      }
    }
  }

  lemma {:induction false} InsertAscending<T>(before: (T, T) -> bool, x: T, s: seq<T>, rows: set<T>)
    requires Orders(before, rows) && x in rows && Within(s, rows)
    requires Ascending(before, s) && x !in s
    ensures Ascending(before, Insert(before, x, s))
  {
    if s == [] {
    } else if before(x, s[0]) {
      HeadFirst(before, s);
      PrependAscending(before, x, s);
    } else {
      HeadFirst(before, s);
      InsertAscending(before, x, s[1..], rows);
      forall y | y in Insert(before, x, s[1..])
        ensures before(s[0], y)
      {
        InsertMember(before, x, s[1..], y);
        assert s[0] in rows;
      }
      PrependAscending(before, s[0], Insert(before, x, s[1..]));
    }
  }

  lemma HeadFirst<T>(before: (T, T) -> bool, s: seq<T>)
    requires s != [] && Ascending(before, s)
    ensures Ascending(before, s[1..])
    ensures forall y :: y in s[1..] ==> before(s[0], y)
    ensures forall y :: y in s <==> y == s[0] || y in s[1..]
  {
    assert s == [s[0]] + s[1..];
    forall y | y in s[1..]
      ensures before(s[0], y)
    {
      var j :| 0 <= j < |s[1..]| && s[1..][j] == y;
      assert s[j + 1] == y;
    }
  }

  lemma SortWithin<T>(before: (T, T) -> bool, s: seq<T>, rows: set<T>)
    requires Within(s, rows)
    ensures Within(Sort(before, s), rows)
  {
    forall y | y in Sort(before, s)
      ensures y in rows
    {
      SortMember(before, s, y);
    }
  }

  lemma {:induction false} SortAscending<T>(before: (T, T) -> bool, s: seq<T>, rows: set<T>)
    requires Orders(before, rows) && Within(s, rows) && NoDuplicates(s)
    ensures Ascending(before, Sort(before, s))
  {
    if s != [] {
      var t := s[1..];
      assert s == [s[0]] + t;
      SortAscending(before, t, rows);
      SortMembers(before, t);
      SortWithin(before, t, rows);
      InsertAscending(before, s[0], Sort(before, t), rows);
    }
  }

  lemma EmptyOrInhabited<T>(s: seq<T>)
    ensures s == [] || exists x :: x in s
  {
    if s != [] {
      assert s[0] in s;
    }
  }

  /** A set of rows has one ascending arrangement. */
  lemma {:induction false} AscendingUnique<T>(before: (T, T) -> bool, s: seq<T>, t: seq<T>, rows: set<T>)
    requires Orders(before, rows) && Within(s, rows)
    requires Ascending(before, s) && Ascending(before, t)
    requires forall x :: x in s <==> x in t
    ensures s == t
  {
    if s == [] {
      EmptyOrInhabited(t);
    } else {
      assert s[0] in t;
      HeadFirst(before, s);
      HeadFirst(before, t);
      assert s[0] in t && t[0] in s;
      assert s[0] == t[0];
      AscendingUnique(before, s[1..], t[1..], rows);
    }
  }

  lemma AscendingNoDuplicates<T>(before: (T, T) -> bool, s: seq<T>, rows: set<T>)
    requires Orders(before, rows) && Within(s, rows) && Ascending(before, s)
    ensures NoDuplicates(s)
  {
    forall i, j | 0 <= i < j < |s|
      ensures s[i] != s[j]
    {
      assert s[i] in s && before(s[i], s[j]);
    }
  }

  lemma SortedFilter<T>(before: (T, T) -> bool, p: T -> bool, table: seq<T>, rows: set<T>)
    requires Orders(before, rows) && Within(table, rows) && NoDuplicates(table)
    ensures
      var all := Sort(before, Filter(p, table));
      && Within(all, rows) && Ascending(before, all)
      && (forall x :: x in all <==> x in table && p(x))
  {
    FilterMembers(p, table);
    FilterNoDuplicates(p, table);
    assert Within(Filter(p, table), rows) by {
      forall y | y in Filter(p, table)
        ensures y in rows
      {
        FilterMember(p, table, y);
      }
    }
    SortWithin(before, Filter(p, table), rows);
    SortMembers(before, Filter(p, table));
    SortAscending(before, Filter(p, table), rows);
  }

  /** In an ascending list, the rows after the `i`-th are the suffix from there. */
  lemma SuffixMembers<T>(before: (T, T) -> bool, s: seq<T>, i: nat, x: T, rows: set<T>)
    requires Orders(before, rows) && Within(s, rows) && Ascending(before, s) && 0 < i <= |s|
    ensures x in s[i..] <==> x in s && before(s[i - 1], x)
  {
    assert s == s[..i] + s[i..];
    if x in s[i..] {
      var j :| 0 <= j < |s[i..]| && s[i..][j] == x;
      assert s[i + j] == x;
    } else if x in s {
      assert x in s[..i];
      var k :| 0 <= k < i && s[k] == x;
      assert s[i - 1] in s;
      assert k == i - 1 || before(s[k], s[i - 1]);
    }
  }

  /** Selecting past the cursor at the `i`-th row and sorting yields the sorted list's
      suffix from there. */
  lemma SortAfter<T>(
    before: (T, T) -> bool, p: T -> bool, q: T -> bool, table: seq<T>, i: nat, rows: set<T>)
    requires Orders(before, rows) && Within(table, rows) && NoDuplicates(table)
    requires i <= |Filter(p, table)|
    requires
      var all := Sort(before, Filter(p, table));
      forall x :: x in table ==> (q(x) <==> p(x) && (i == 0 || before(all[i - 1], x)))
    ensures Sort(before, Filter(q, table)) == Sort(before, Filter(p, table))[i..]
  {
    var all := Sort(before, Filter(p, table));
    var rest := Sort(before, Filter(q, table));
    SortedFilter(before, p, table, rows);
    SortedFilter(before, q, table, rows);
    if i == 0 {
      assert all[i..] == all;
    } else {
      forall x
        ensures x in rest <==> x in all[i..]
      {
        SuffixMembers(before, all, i, x, rows);
      }
    }
    AscendingUnique(before, rest, all[i..], rows);
  }

  // ---------- LIMIT: pages ----------

  /** The pages a list of rows falls into. */
  function Pages<T>(size: nat, s: seq<T>): (r: seq<seq<T>>)
    requires size >= 1
    ensures |r| >= 1
  {
    if |s| <= size then [s] else [s[..size]] + Pages(size, s[size..])
  }

  lemma {:induction false} PagesFlatten<T>(size: nat, s: seq<T>)
    requires size >= 1
    ensures Flatten(Pages(size, s)) == s
  {
    if |s| <= size {
      assert Pages(size, s)[1..] == [];
    } else {
      PagesFlatten(size, s[size..]);
      assert Pages(size, s)[1..] == Pages(size, s[size..]);
      assert s == s[..size] + s[size..];
    }
  }

  lemma {:induction false} PagesCount<T>(size: nat, s: seq<T>)
    requires size >= 1
    ensures |Pages(size, s)| == if s == [] then 1 else (|s| + size - 1) / size
  {
    if |s| > size {
      PagesCount(size, s[size..]);
      Arithmetic.OneLess(|s| + size - 1, size);
    } else if |s| > 0 {
      Arithmetic.QuotientUnique(|s| + size - 1, size, 1, |s| - 1);
    }
  }

  /** One row more than the limit is fetched to see whether there is a next page; its cursor
      is then the mark of this page's last row. */
  function Trim<T>(fetched: seq<T>, limit: nat, mark: T -> string): (seq<T>, Option<string>)
    requires limit >= 1
  {
    if |fetched| > limit then (fetched[..limit], Some(mark(fetched[limit - 1]))) else (fetched, None)
  }

  /** The cursor after the first `i` rows. */
  function Marks<T>(all: seq<T>, mark: T -> string): nat -> Option<string> {
    (i: nat) => if 0 < i <= |all| then Some(mark(all[i - 1])) else None
  }

  lemma TrimIsNext<T>(fetched: seq<T>, all: seq<T>, limit: nat, i: nat, mark: T -> string)
    requires limit >= 1 && i <= |all| && fetched == Take(limit + 1, all[i..])
    ensures Trim(fetched, limit, mark) == NextPage(Marks(all, mark), all, limit, i)
  {
    if |all| - i > limit {
      assert fetched[..limit] == all[i..i + limit];
      assert fetched[limit - 1] == all[i + limit - 1];
    }
  }

  /** `pages` is what a client gets that asks for a page and then follows the cursors it is
      given until there is none. */
  ghost predicate Follows<T>(
    fetch: Option<string> -> (seq<T>, Option<string>), cursor: Option<string>, pages: seq<seq<T>>)
    decreases |pages|
  {
    |pages| > 0 &&
    var (page, next) := fetch(cursor);
    && pages[0] == page
    && (if next.None? then |pages| == 1 else Follows(fetch, next, pages[1..]))
  }

  /** From the cursor `at(i)` a page is the next `limit` rows of `all` from the `i`-th on, and
      its cursor is `at(i + limit)` if rows are left. */
  ghost predicate PagesThrough<T>(
    fetch: Option<string> -> (seq<T>, Option<string>), at: nat -> Option<string>, all: seq<T>,
    limit: nat)
  {
    forall i: nat {:trigger at(i)} :: i <= |all| ==>
      && (i > 0 ==> at(i).Some?)
      && fetch(at(i)) == NextPage(at, all, limit, i)
  }

  ghost function NextPage<T>(at: nat -> Option<string>, all: seq<T>, limit: nat, i: nat)
    : (seq<T>, Option<string>)
    requires i <= |all|
  {
    if |all| - i > limit then (all[i..i + limit], at(i + limit)) else (all[i..], None)
  }

  lemma {:induction false} WalkFrom<T>(
    fetch: Option<string> -> (seq<T>, Option<string>), at: nat -> Option<string>, all: seq<T>,
    limit: nat, i: nat, pages: seq<seq<T>>)
    requires limit >= 1 && i <= |all| && PagesThrough(fetch, at, all, limit)
    ensures Follows(fetch, at(i), pages) <==> pages == Pages(limit, all[i..])
    decreases |pages|
  {
    assert fetch(at(i)) == NextPage(at, all, limit, i);
    if |pages| > 0 {
      assert pages == [pages[0]] + pages[1..];
      if |all| - i > limit {
        assert at(i + limit).Some?;
        WalkFrom(fetch, at, all, limit, i + limit, pages[1..]);
        PagesOfLonger(limit, all, i);
      } else {
        assert Pages(limit, all[i..]) == [all[i..]];
      }
    }
  }

  lemma PagesOfLonger<T>(limit: nat, all: seq<T>, i: nat)
    requires limit >= 1 && i + limit < |all|
    ensures Pages(limit, all[i..]) == [all[i..i + limit]] + Pages(limit, all[i + limit..])
  {
    assert all[i..][limit..] == all[i + limit..];
    assert all[i..][..limit] == all[i..i + limit];
  }

  /** A walk that pages through `all` from the start returns its pages, and no other. */
  lemma WalkIsExact<T>(
    fetch: Option<string> -> (seq<T>, Option<string>), at: nat -> Option<string>, all: seq<T>,
    limit: nat, pages: seq<seq<T>>)
    requires limit >= 1 && PagesThrough(fetch, at, all, limit) && at(0) == None
    ensures Follows(fetch, None, pages) <==> pages == Pages(limit, all)
    ensures Flatten(Pages(limit, all)) == all
    ensures |Pages(limit, all)| == if |all| == 0 then 1 else (|all| + limit - 1) / limit
  {
    assert all[0..] == all;
    WalkFrom(fetch, at, all, limit, 0, pages);
    PagesFlatten(limit, all);
    PagesCount(limit, all);
  }
}
