/** The read-only queries over the task table (the active list, the trash and
    the statistics), and what each of them returns. */
module Queries {
  import opened Results
  import opened Models
  import opened Collation

  /** The task table maps each id to the record carrying that id. */
  ghost predicate IdsMatch(t: map<nat, MovieTask>) {
    forall k :: k in t ==> t[k].id == k
  }

  /** ... and every id in it is below the id counter `n`. */
  ghost predicate Indexed(t: map<nat, MovieTask>, n: nat) {
    IdsMatch(t) && forall k :: k in t ==> k < n
  }

  /** `x` is a record of the table. */
  ghost predicate InTable(t: map<nat, MovieTask>, x: MovieTask) {
    x.id in t && t[x.id] == x
  }

  /** Record `id` exists and belongs to user `u`: this is how every handler
      looks a task up, never by id alone. */
  predicate Owns(t: map<nat, MovieTask>, id: nat, u: nat) {
    id in t && t[id].userId == u
  }

  ghost predicate Ascending(s: seq<MovieTask>) {
    forall i, j :: 0 <= i < j < |s| ==> s[i].id < s[j].id
  }

  ghost predicate Descending(s: seq<MovieTask>) {
    forall i, j :: 0 <= i < j < |s| ==> s[i].id > s[j].id
  }

  /** The records with ids below `n`, in primary-key (store) order. */
  function Rows(t: map<nat, MovieTask>, n: nat): seq<MovieTask> {
    if n == 0 then [] else Rows(t, n - 1) + (if n - 1 in t then [t[n - 1]] else [])
  }

  // ---------------------------------------------------------------------
  // Row selection, one criterion of a `filter_by` at a time.

  datatype Pick =
    | Any
    | OwnedBy(user: nat)
    | ActiveOnly
    | TrashedOnly
    | StatusIs(status: string)
    | CategoryIs(category: string)

  predicate Holds(p: Pick, x: MovieTask) {
    match p
    case Any => true
    case OwnedBy(u) => x.userId == u
    case ActiveOnly => IsActive(x)
    case TrashedOnly => !IsActive(x)
    case StatusIs(s) => x.status == Some(s)
    case CategoryIs(c) => x.category == Some(c)
  }

  /** The elements of `s` that meet `p`, in the order of `s`. */
  function Select(s: seq<MovieTask>, p: Pick): seq<MovieTask> {
    if s == [] then [] else (if Holds(p, s[0]) then [s[0]] else []) + Select(s[1..], p)
  }

  function Reverse(s: seq<MovieTask>): seq<MovieTask> {
    if s == [] then [] else [s[|s| - 1]] + Reverse(s[..|s| - 1])
  }

  // ---------------------------------------------------------------------
  // Descending year order; a null year sorts above every string.

  predicate YearFirst(a: Option<string>, b: Option<string>) {
    a.None? || (b.Some? && StrLe(b.value, a.value))
  }

  ghost predicate YearSorted(s: seq<MovieTask>) {
    forall i, j :: 0 <= i < j < |s| ==> YearFirst(s[i].year, s[j].year)
  }

  /** Places `x` in front of the first element it may precede. */
  function InsertByYear(x: MovieTask, s: seq<MovieTask>): seq<MovieTask> {
    if s == [] then [x]
    else if YearFirst(x.year, s[0].year) then [x] + s
    else [s[0]] + InsertByYear(x, s[1..])
  }

  /** Insertion sort by descending year; equal years keep their order. */
  function SortByYear(s: seq<MovieTask>): seq<MovieTask> {
    if s == [] then [] else InsertByYear(s[0], SortByYear(s[1..]))
  }

  // ---------------------------------------------------------------------
  // The queries.

  /** The query string of the active-list request; each parameter may be absent. */
  datatype TaskQuery = TaskQuery(status: Option<string>, category: Option<string>, sort: Option<string>)

  const NoFilter := TaskQuery(None, None, None)

  /** A filter parameter takes part only when it is present and non-empty. */
  function StatusPick(f: Option<string>): Pick {
    if f.Some? && f.value != "" then StatusIs(f.value) else Any
  }

  function CategoryPick(f: Option<string>): Pick {
    if f.Some? && f.value != "" then CategoryIs(f.value) else Any
  }

  /** What the two filters of `q` demand of a listed task. */
  predicate MatchesQuery(x: MovieTask, q: TaskQuery) {
    && (q.status.Some? && q.status.value != "" ==> x.status == q.status)
    && (q.category.Some? && q.category.value != "" ==> x.category == q.category)
  }

  /** All of user `u`'s records in store order: every per-user view is computed from this alone. */
  function Mine(t: map<nat, MovieTask>, n: nat, u: nat): seq<MovieTask> {
    Select(Rows(t, n), OwnedBy(u))
  }

  function Active(t: map<nat, MovieTask>, n: nat, u: nat): seq<MovieTask> {
    Select(Mine(t, n, u), ActiveOnly)
  }

  /** The caller's untrashed tasks that pass the filters of `q`, in store order. */
  function Filtered(t: map<nat, MovieTask>, n: nat, u: nat, q: TaskQuery): seq<MovieTask> {
    Select(Select(Active(t, n, u), StatusPick(q.status)), CategoryPick(q.category))
  }

  /** The active list: the caller's untrashed tasks, filtered by `q`, newest
      first, or by descending year when `q` asks for it. */
  function ListActive(t: map<nat, MovieTask>, n: nat, u: nat, q: TaskQuery): seq<MovieTask> {
    var newest := Reverse(Filtered(t, n, u, q));
    if q.sort == Some("year") then SortByYear(newest) else newest
  }

  /** The trash: the caller's trashed tasks in store order. */
  function Trash(t: map<nat, MovieTask>, n: nat, u: nat): seq<MovieTask> {
    Select(Mine(t, n, u), TrashedOnly)
  }

  datatype Stats = Stats(totalSaved: nat, watched: nat, pending: nat, favouriteGenre: Option<string>)

  /** The size of category `c`'s group; counting the column skips nulls, so the null group counts 0. */
  function Qty(s: seq<MovieTask>, c: Option<string>): nat {
    if c.None? then 0 else |Select(s, CategoryIs(c.value))|
  }

  /** The category of `cands` with the largest group in `all`; on a tie the
      one met first. */
  function TopCategory(cands: seq<MovieTask>, all: seq<MovieTask>): (r: Option<string>)
    requires cands != []
    ensures exists i :: 0 <= i < |cands| && cands[i].category == r
    ensures forall i :: 0 <= i < |cands| ==> Qty(all, cands[i].category) <= Qty(all, r)
  {
    if |cands| == 1 then cands[0].category
    else
      var rest := TopCategory(cands[1..], all);
      assert forall i :: 1 <= i < |cands| ==> cands[i] == cands[1..][i - 1];
      if Qty(all, rest) <= Qty(all, cands[0].category) then cands[0].category else rest
  }

  /** "N/A" when there is no task at all. */
  function FavouriteGenre(s: seq<MovieTask>): Option<string> {
    if s == [] then Some("N/A") else TopCategory(s, s)
  }

  function MovieStats(t: map<nat, MovieTask>, n: nat, u: nat): Stats {
    var active := Active(t, n, u);
    Stats(|active|, |Select(active, StatusIs("watched"))|, |Select(active, StatusIs("pending"))|,
          FavouriteGenre(active))
  }

  /** Everything user `v` can see is the same in both tables. */
  ghost predicate SameViews(t1: map<nat, MovieTask>, n1: nat, t2: map<nat, MovieTask>, n2: nat, v: nat) {
    && (forall q :: ListActive(t1, n1, v, q) == ListActive(t2, n2, v, q))
    && Trash(t1, n1, v) == Trash(t2, n2, v)
    && MovieStats(t1, n1, v) == MovieStats(t2, n2, v)
  }

  // ---------------------------------------------------------------------
  // Lemmas about the building blocks.

  lemma {:induction false} RowsMembers(t: map<nat, MovieTask>, n: nat)
    requires IdsMatch(t)
    ensures forall x :: x in Rows(t, n) <==> x.id < n && InTable(t, x)
  {
    if n > 0 { RowsMembers(t, n - 1); }
  }

  lemma {:induction false} RowsAscending(t: map<nat, MovieTask>, n: nat)
    requires IdsMatch(t)
    ensures Ascending(Rows(t, n))
  {
    if n > 0 {
      RowsAscending(t, n - 1);
      RowsMembers(t, n - 1);
      var a := Rows(t, n - 1);
      assert forall i :: 0 <= i < |a| ==> a[i] in a;
    }
  }

  /** Rows below `n` depend only on the table below `n`. */
  lemma {:induction false} RowsBeyond(t: map<nat, MovieTask>, n: nat, m: nat)
    requires n <= m
    requires forall k :: k in t ==> k < n
    ensures Rows(t, m) == Rows(t, n)
    decreases m
  {
    if m > n { RowsBeyond(t, n, m - 1); }
  }

  lemma {:induction false} RowsFrame(t1: map<nat, MovieTask>, t2: map<nat, MovieTask>, n: nat)
    requires forall k :: k < n ==> (k in t1 <==> k in t2)
    requires forall k :: k < n && k in t1 ==> t1[k] == t2[k]
    ensures Rows(t1, n) == Rows(t2, n)
  {
    if n > 0 { RowsFrame(t1, t2, n - 1); }
  }

  lemma {:induction false} SelectMembers(s: seq<MovieTask>, p: Pick)
    ensures forall x :: x in Select(s, p) <==> x in s && Holds(p, x)
  {
    if s != [] {
      SelectMembers(s[1..], p);
      assert s == [s[0]] + s[1..];
    }
  }

  lemma {:induction false} SelectAppend(a: seq<MovieTask>, b: seq<MovieTask>, p: Pick)
    ensures Select(a + b, p) == Select(a, p) + Select(b, p)
  {
    if a != [] {
      assert (a + b)[1..] == a[1..] + b;
      SelectAppend(a[1..], b, p);
    } else {
      assert a + b == b;
    }
  }

  lemma {:induction false} SelectAscending(s: seq<MovieTask>, p: Pick)
    requires Ascending(s)
    ensures Ascending(Select(s, p))
  {
    if s != [] {
      SelectAscending(s[1..], p);
      SelectMembers(s[1..], p);
      var r := Select(s[1..], p);
      forall i | 0 <= i < |r| ensures s[0].id < r[i].id {
        assert r[i] in s[1..];
      }
    }
  }

  lemma {:induction false} SelectAll(s: seq<MovieTask>, p: Pick)
    requires forall x :: x in s ==> Holds(p, x)
    ensures Select(s, p) == s
  {
    if s != [] {
      assert forall x :: x in s[1..] ==> x in s;
      SelectAll(s[1..], p);
      assert s == [s[0]] + s[1..];
    }
  }

  /** Every record is either active or trashed, so the two selections split `s`. */
  lemma {:induction false} SelectSplit(s: seq<MovieTask>)
    ensures multiset(Select(s, ActiveOnly)) + multiset(Select(s, TrashedOnly)) == multiset(s)
  {
    if s != [] {
      var rest := s[1..];
      SelectSplit(rest);
      assert s == [s[0]] + rest;
    }
  }

  lemma {:induction false} SelectNone(s: seq<MovieTask>, p: Pick)
    requires forall x :: x in s ==> !Holds(p, x)
    ensures Select(s, p) == []
  {
    if s != [] {
      assert forall x :: x in s[1..] ==> x in s;
      SelectNone(s[1..], p);
    }
  }

  /** Two criteria no element meets both of select at most `|s|` elements together. */
  lemma {:induction false} SelectDisjoint(s: seq<MovieTask>, a: Pick, b: Pick)
    requires forall x :: x in s ==> !(Holds(a, x) && Holds(b, x))
    ensures |Select(s, a)| + |Select(s, b)| <= |s|
  {
    if s != [] {
      assert forall x :: x in s[1..] ==> x in s;
      SelectDisjoint(s[1..], a, b);
    }
  }

  lemma {:induction false} ReverseAt(s: seq<MovieTask>)
    ensures |Reverse(s)| == |s|
    ensures forall i :: 0 <= i < |s| ==> Reverse(s)[i] == s[|s| - 1 - i]
    ensures multiset(Reverse(s)) == multiset(s)
    decreases |s|
  {
    if s != [] {
      var init := s[..|s| - 1];
      ReverseAt(init);
      assert s == init + [s[|s| - 1]];
    }
  }

  lemma ReverseAppend(s: seq<MovieTask>, x: MovieTask)
    ensures Reverse(s + [x]) == [x] + Reverse(s)
  {
    assert (s + [x])[..|s|] == s;
  }

  lemma ReverseDescending(s: seq<MovieTask>)
    requires Ascending(s)
    ensures Descending(Reverse(s))
  {
    ReverseAt(s);
  }

  lemma YearFirstTotal(a: Option<string>, b: Option<string>)
    ensures YearFirst(a, b) || YearFirst(b, a)
  {
    if a.Some? && b.Some? { StrLeTotal(a.value, b.value); }
  }

  lemma YearFirstTrans(a: Option<string>, b: Option<string>, c: Option<string>)
    requires YearFirst(a, b) && YearFirst(b, c)
    ensures YearFirst(a, c)
  {
    if a.Some? { StrLeTrans(c.value, b.value, a.value); }
  }

  /** The year order is reflexive, and two years that may each precede the
      other are the same year. */
  lemma YearFirstOrder(a: Option<string>, b: Option<string>)
    ensures YearFirst(a, a)
    ensures YearFirst(a, b) && YearFirst(b, a) ==> a == b
  {
    if a.Some? {
      StrLeRefl(a.value);
      if b.Some? && YearFirst(a, b) && YearFirst(b, a) {
        StrLeAntisymmetric(a.value, b.value);
      }
    }
  }

  lemma {:induction false} InsertByYearSorted(x: MovieTask, s: seq<MovieTask>)
    requires YearSorted(s)
    ensures multiset(InsertByYear(x, s)) == multiset(s) + multiset{x}
    ensures YearSorted(InsertByYear(x, s))
  {
    if s == [] {
    } else if YearFirst(x.year, s[0].year) {
      forall j | 0 <= j < |s| ensures YearFirst(x.year, s[j].year) {
        if j > 0 { YearFirstTrans(x.year, s[0].year, s[j].year); }
      }
      assert s == [s[0]] + s[1..];
    } else {
      var rest := s[1..];
      InsertByYearSorted(x, rest);
      var r := InsertByYear(x, rest);
      YearFirstTotal(x.year, s[0].year);
      assert s == [s[0]] + rest;
      forall j | 0 <= j < |r| ensures YearFirst(s[0].year, r[j].year) {
        assert r[j] in multiset(r);
        if r[j] != x {
          assert r[j] in rest;
          var k :| 0 <= k < |rest| && rest[k] == r[j];
          assert s[k + 1] == r[j];
        }
      }
    }
  }

  lemma {:induction false} SortByYearSorted(s: seq<MovieTask>)
    ensures multiset(SortByYear(s)) == multiset(s)
    ensures YearSorted(SortByYear(s))
  {
    if s != [] {
      SortByYearSorted(s[1..]);
      InsertByYearSorted(s[0], SortByYear(s[1..]));
      assert s == [s[0]] + s[1..];
    }
  }

  // ---------------------------------------------------------------------
  // What the queries return.

  lemma MineMembers(t: map<nat, MovieTask>, n: nat, u: nat)
    requires Indexed(t, n)
    ensures forall x :: x in Mine(t, n, u) <==> InTable(t, x) && x.userId == u
    ensures Ascending(Mine(t, n, u))
  {
    RowsMembers(t, n);
    SelectMembers(Rows(t, n), OwnedBy(u));
    RowsAscending(t, n);
    SelectAscending(Rows(t, n), OwnedBy(u));
  }

  lemma ActiveMembers(t: map<nat, MovieTask>, n: nat, u: nat)
    requires Indexed(t, n)
    ensures forall x :: x in Active(t, n, u) <==> InTable(t, x) && x.userId == u && IsActive(x)
    ensures Ascending(Active(t, n, u))
  {
    MineMembers(t, n, u);
    SelectMembers(Mine(t, n, u), ActiveOnly);
    SelectAscending(Mine(t, n, u), ActiveOnly);
  }

  lemma FilteredMembers(t: map<nat, MovieTask>, n: nat, u: nat, q: TaskQuery)
    requires Indexed(t, n)
    ensures forall x :: x in Filtered(t, n, u, q) <==>
      InTable(t, x) && x.userId == u && IsActive(x) && MatchesQuery(x, q)
    ensures Ascending(Filtered(t, n, u, q))
  {
    var a := Active(t, n, u);
    var f1 := Select(a, StatusPick(q.status));
    ActiveMembers(t, n, u);
    SelectMembers(a, StatusPick(q.status));
    SelectMembers(f1, CategoryPick(q.category));
    SelectAscending(a, StatusPick(q.status));
    SelectAscending(f1, CategoryPick(q.category));
  }

  /** The active list holds exactly the caller's untrashed tasks that pass
      the filters. */
  lemma ListActiveMembers(t: map<nat, MovieTask>, n: nat, u: nat, q: TaskQuery)
    requires Indexed(t, n)
    ensures forall x :: x in ListActive(t, n, u, q) <==>
      InTable(t, x) && x.userId == u && IsActive(x) && MatchesQuery(x, q)
  {
    var f := Filtered(t, n, u, q);
    FilteredMembers(t, n, u, q);
    ReverseAt(f);
    SortByYearSorted(Reverse(f));
    assert forall x :: x in Reverse(f) <==> x in multiset(Reverse(f));
  }

  /** Default order is by id, newest first; `sort=year` orders by descending
      year and lists the very same tasks. */
  lemma ListActiveOrder(t: map<nat, MovieTask>, n: nat, u: nat, q: TaskQuery)
    requires Indexed(t, n)
    ensures q.sort != Some("year") ==> Descending(ListActive(t, n, u, q))
    ensures q.sort == Some("year") ==>
      YearSorted(ListActive(t, n, u, q)) &&
      multiset(ListActive(t, n, u, q)) == multiset(ListActive(t, n, u, q.(sort := None)))
  {
    var f := Filtered(t, n, u, q);
    FilteredMembers(t, n, u, q);
    ReverseDescending(f);
    SortByYearSorted(Reverse(f));
  }

  /** The trash holds exactly the caller's trashed tasks, in store order. */
  lemma TrashMembers(t: map<nat, MovieTask>, n: nat, u: nat)
    requires Indexed(t, n)
    ensures forall x :: x in Trash(t, n, u) <==> InTable(t, x) && x.userId == u && !IsActive(x)
    ensures Ascending(Trash(t, n, u))
  {
    MineMembers(t, n, u);
    SelectMembers(Mine(t, n, u), TrashedOnly);
    SelectAscending(Mine(t, n, u), TrashedOnly);
  }

  /** The unfiltered active list and the trash split the caller's tasks. */
  lemma ActiveAndTrashPartition(t: map<nat, MovieTask>, n: nat, u: nat)
    ensures multiset(ListActive(t, n, u, NoFilter)) + multiset(Trash(t, n, u)) == multiset(Mine(t, n, u))
  {
    var a := Active(t, n, u);
    SelectMembers(Mine(t, n, u), ActiveOnly);
    SelectAll(a, Any);
    ReverseAt(a);
    SelectSplit(Mine(t, n, u));
  }

  /** The two tables hold the same records of user `v`. */
  ghost predicate AgreeFor(t1: map<nat, MovieTask>, t2: map<nat, MovieTask>, v: nat) {
    && (forall k :: Owns(t1, k, v) <==> Owns(t2, k, v))
    && (forall k :: Owns(t1, k, v) ==> t1[k] == t2[k])
  }

  lemma {:induction false} MineAgree(t1: map<nat, MovieTask>, t2: map<nat, MovieTask>, n: nat, v: nat)
    requires AgreeFor(t1, t2, v)
    ensures Mine(t1, n, v) == Mine(t2, n, v)
  {
    if n > 0 {
      MineAgree(t1, t2, n - 1, v);
      var k := n - 1;
      var tail1 := if k in t1 then [t1[k]] else [];
      var tail2 := if k in t2 then [t2[k]] else [];
      SelectAppend(Rows(t1, k), tail1, OwnedBy(v));
      SelectAppend(Rows(t2, k), tail2, OwnedBy(v));
      assert Owns(t1, k, v) <==> Owns(t2, k, v);
    }
  }

  /** Ownership isolation: what user `v` sees depends only on `v`'s own
      records, whatever happens to everybody else's. */
  lemma OwnerViewsAgree(t1: map<nat, MovieTask>, n1: nat, t2: map<nat, MovieTask>, n2: nat, v: nat)
    requires Indexed(t1, n1) && Indexed(t2, n2) && AgreeFor(t1, t2, v)
    ensures Mine(t1, n1, v) == Mine(t2, n2, v)
    ensures SameViews(t1, n1, t2, n2, v)
  {
    var m := if n1 < n2 then n2 else n1;
    RowsBeyond(t1, n1, m);
    RowsBeyond(t2, n2, m);
    MineAgree(t1, t2, m, v);
  }

  /** Listing with only a status filter lists the active tasks with that status. */
  lemma ListActiveByStatus(t: map<nat, MovieTask>, n: nat, u: nat, st: string)
    requires st != ""
    ensures |ListActive(t, n, u, TaskQuery(Some(st), None, None))| == |Select(Active(t, n, u), StatusIs(st))|
  {
    var w := Select(Active(t, n, u), StatusIs(st));
    SelectAll(w, Any);
    ReverseAt(w);
  }

  lemma ListActiveAll(t: map<nat, MovieTask>, n: nat, u: nat)
    ensures ListActive(t, n, u, NoFilter) == Reverse(Active(t, n, u))
  {
    var a := Active(t, n, u);
    SelectAll(a, Any);
    SelectAll(Select(a, Any), Any);
  }

  /** The statistics count the active list: the total is its length, the
      watched and pending counts are the lengths of the status-filtered
      lists, and together they never exceed the total. */
  lemma StatsCounts(t: map<nat, MovieTask>, n: nat, u: nat)
    ensures MovieStats(t, n, u).totalSaved == |ListActive(t, n, u, NoFilter)|
    ensures MovieStats(t, n, u).watched == |ListActive(t, n, u, TaskQuery(Some("watched"), None, None))|
    ensures MovieStats(t, n, u).pending == |ListActive(t, n, u, TaskQuery(Some("pending"), None, None))|
    ensures MovieStats(t, n, u).watched + MovieStats(t, n, u).pending <= MovieStats(t, n, u).totalSaved
  {
    var a := Active(t, n, u);
    ListActiveAll(t, n, u);
    ReverseAt(a);
    ListActiveByStatus(t, n, u, "watched");
    ListActiveByStatus(t, n, u, "pending");
    SelectDisjoint(a, StatusIs("watched"), StatusIs("pending"));
  }

  /** The favourite genre is a category of an active task whose group is
      as large as any; it is "N/A" when there are no active tasks (an
      active category literally named "N/A" gives the same answer), and
      null only when no active task has a category. */
  lemma FavouriteGenreIsMostCommon(t: map<nat, MovieTask>, n: nat, u: nat)
    ensures var a := Active(t, n, u); var f := MovieStats(t, n, u).favouriteGenre;
      && (a == [] ==> f == Some("N/A"))
      && (a != [] ==> (exists x :: x in a && x.category == f) &&
                      (forall x :: x in a ==> Qty(a, x.category) <= Qty(a, f)))
      && (f.None? ==> forall x :: x in a ==> x.category.None?)
  {
    var a := Active(t, n, u);
    var f := MovieStats(t, n, u).favouriteGenre;
    if a != [] {
      var i :| 0 <= i < |a| && a[i].category == f;
      assert a[i] in a;
      forall x | x in a ensures Qty(a, x.category) <= Qty(a, f) {
        var j :| 0 <= j < |a| && a[j] == x;
      }
      forall x | x in a && x.category.Some? ensures Qty(a, x.category) >= 1 {
        SelectMembers(a, CategoryIs(x.category.value));
        assert x in Select(a, CategoryIs(x.category.value));
      }
    }
  }

  /** A user with no active tasks gets zero counts and "N/A". */
  lemma EmptyStats(t: map<nat, MovieTask>, n: nat, u: nat)
    requires Indexed(t, n)
    requires forall k :: Owns(t, k, u) ==> !IsActive(t[k])
    ensures MovieStats(t, n, u) == Stats(0, 0, 0, Some("N/A"))
  {
    MineMembers(t, n, u);
    SelectNone(Mine(t, n, u), ActiveOnly);
  }
}
