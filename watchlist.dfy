/** The watchlist store: the user and task tables, the handlers that change
    them, and what each change does to the lists the owner and everybody
    else see. */
module Watchlist {
  import opened Results
  import opened Models
  import opened Queries

  /** The user table: keys from 1 below the counter `n`, each naming its own
      record, with unique usernames and every row within its column widths. */
  ghost predicate UsersOk(users: map<nat, User>, n: nat) {
    && (forall k :: k in users ==> 0 < k < n && users[k].id == k && UserFits(users[k]))
    && (forall a, b :: a in users && b in users && users[a].username == users[b].username ==> a == b)
  }

  predicate UsernameTaken(users: map<nat, User>, name: string) {
    exists k :: k in users && users[k].username == name
  }

  /** The lookup of a user by name among the ids below `n`. */
  function FindByName(users: map<nat, User>, name: string, n: nat): (r: Option<nat>)
    ensures r.Some? ==> r.value < n && r.value in users && users[r.value].username == name
    ensures r.None? ==> forall k :: k < n && k in users ==> users[k].username != name
  {
    if n == 0 then None
    else if n - 1 in users && users[n - 1].username == name then Some(n - 1)
    else FindByName(users, name, n - 1)
  }

  /** Login: the user with that name, provided `checkPassword` accepts the
      password against the stored digest; `checkPassword` stands for the
      password-hash library, which is not modelled. */
  function Login(users: map<nat, User>, n: nat, username: string, password: string,
                 checkPassword: (string, string) -> bool): (r: Result<nat>)
    requires UsersOk(users, n)
    ensures r.Ok? <==> exists k :: k in users && users[k].username == username &&
                                   checkPassword(users[k].passwordHash, password)
    ensures r.Ok? ==> r.value in users && users[r.value].username == username
    ensures r.Err? ==> r.error == Unauthorized
  {
    match FindByName(users, username, n)
    case Some(k) => if checkPassword(users[k].passwordHash, password) then Ok(k) else Err(Unauthorized)
    case None => Err(Unauthorized)
  }

  /** The body of the add-task request; a missing key reads as `None`.
      `status` is accepted and ignored. */
  datatype NewTask = NewTask(
    title: Option<string>,
    year: Option<string>,
    plot: Option<string>,
    imdbRating: Option<string>,
    posterUrl: Option<string>,
    category: Option<string>,
    status: Option<string>,
    trailerLink: Option<string>)

  /** The row the add-task handler inserts: always pending, "General" unless
      a category is given, owned by the caller. */
  function AddedRecord(id: nat, caller: nat, req: NewTask): MovieTask
    requires req.title.Some?
  {
    NewMovieTask(id, caller, req.title.value, req.year, req.plot,
                 if req.category.Some? then req.category else Some(DefaultCategory),
                 Some("pending"), req.imdbRating, req.posterUrl, req.trailerLink)
  }

  /** One field of an update body: left out, or given (possibly as null). */
  datatype Field = Absent | Given(value: Option<string>)

  function Apply(f: Field, current: Option<string>): Option<string> {
    if f.Given? then f.value else current
  }

  function Updated(t: map<nat, MovieTask>, id: nat, status: Field, category: Field): map<nat, MovieTask>
    requires id in t
  {
    t[id := t[id].(status := Apply(status, t[id].status), category := Apply(category, t[id].category))]
  }

  function SoftDeleted(t: map<nat, MovieTask>, id: nat, now: int): map<nat, MovieTask>
    requires id in t
  {
    t[id := t[id].(deletedAt := Some(now))]
  }

  function Restored(t: map<nat, MovieTask>, id: nat): map<nat, MovieTask>
    requires id in t
  {
    t[id := t[id].(deletedAt := None)]
  }

  /** The in-memory store standing for the two database tables. */
  class Store {
    var users: map<nat, User>
    var nextUserId: nat
    var tasks: map<nat, MovieTask>
    var nextTaskId: nat

    /** Both tables are well keyed, every row fits its columns, and every
        task has an owner in the user table. */
    ghost predicate Valid()
      reads this
    {
      && 0 < nextUserId && 0 < nextTaskId
      && UsersOk(users, nextUserId)
      && Indexed(tasks, nextTaskId)
      && 0 !in tasks
      && (forall k :: k in tasks ==> FitsColumns(tasks[k]) && tasks[k].userId in users)
    }

    constructor ()
      ensures Valid()
      ensures users == map[] && tasks == map[] && nextUserId == 1 && nextTaskId == 1
    {
      users := map[];
      tasks := map[];
      nextUserId := 1;
      nextTaskId := 1;
    }

    /** Registration; `passwordHash` is the digest of the submitted password. */
    method Register(username: string, passwordHash: string) returns (r: Result<nat>)
      requires Valid()
      modifies this
      ensures Valid()
      ensures r == Err(UserExists) <==> UsernameTaken(old(users), username)
      ensures r == Err(Rejected) <==>
        !UsernameTaken(old(users), username) && !UserFits(User(old(nextUserId), username, passwordHash))
      ensures r.Ok? <==>
        !UsernameTaken(old(users), username) && UserFits(User(old(nextUserId), username, passwordHash))
      ensures r.Ok? ==> r.value == old(nextUserId) && nextUserId == old(nextUserId) + 1 &&
                        users == old(users)[r.value := User(r.value, username, passwordHash)]
      ensures r.Err? ==> users == old(users) && nextUserId == old(nextUserId)
      ensures tasks == old(tasks) && nextTaskId == old(nextTaskId)
    {
      var found := FindByName(users, username, nextUserId);
      if found.Some? {
        r := Err(UserExists);
        return;
      }
      var user := User(nextUserId, username, passwordHash);
      if !UserFits(user) {
        r := Err(Rejected);
        return;
      }
      users := users[nextUserId := user];
      r := Ok(nextUserId);
      nextUserId := nextUserId + 1;
    }

    /** Adds a task for `caller` and answers with its dictionary. */
    method AddTask(caller: nat, req: NewTask) returns (r: Result<TaskView>)
      requires Valid()
      modifies this
      ensures Valid()
      ensures r.Ok? <==> caller in old(users) && req.title.Some? &&
                         FitsColumns(AddedRecord(old(nextTaskId), caller, req))
      ensures r.Err? ==> r.error == Rejected && tasks == old(tasks) && nextTaskId == old(nextTaskId)
      ensures r.Ok? ==>
        var rec := AddedRecord(old(nextTaskId), caller, req);
        && tasks == old(tasks)[rec.id := rec]
        && nextTaskId == old(nextTaskId) + 1
        && r.value == ToDict(rec)
      ensures users == old(users) && nextUserId == old(nextUserId)
    {
      if caller !in users || req.title.None? {
        r := Err(Rejected);
        return;
      }
      var rec := AddedRecord(nextTaskId, caller, req);
      if !FitsColumns(rec) {
        r := Err(Rejected);
        return;
      }
      tasks := tasks[nextTaskId := rec];
      nextTaskId := nextTaskId + 1;
      r := Ok(ToDict(rec));
    }

    /** Changes the status and category of one of the caller's tasks. */
    method UpdateTask(caller: nat, id: nat, status: Field, category: Field) returns (r: Result<TaskView>)
      requires Valid()
      modifies this
      ensures Valid()
      ensures r == Err(NotFound) <==> !Owns(old(tasks), id, caller)
      ensures r == Err(Rejected) <==>
        Owns(old(tasks), id, caller) && !FitsColumns(Updated(old(tasks), id, status, category)[id])
      ensures r.Ok? <==>
        Owns(old(tasks), id, caller) && FitsColumns(Updated(old(tasks), id, status, category)[id])
      ensures r.Err? ==> tasks == old(tasks)
      ensures r.Ok? ==> tasks == Updated(old(tasks), id, status, category) && r.value == ToDict(tasks[id])
      ensures users == old(users) && nextUserId == old(nextUserId) && nextTaskId == old(nextTaskId)
    {
      if !Owns(tasks, id, caller) {
        r := Err(NotFound);
        return;
      }
      var changed := Updated(tasks, id, status, category);
      if !FitsColumns(changed[id]) {
        r := Err(Rejected);
        return;
      }
      tasks := changed;
      r := Ok(ToDict(tasks[id]));
    }

    /** Moves one of the caller's tasks to the trash, stamped `now`. An
        already trashed task is stamped again. */
    method DeleteTask(caller: nat, id: nat, now: int) returns (r: Result<()>)
      requires Valid()
      modifies this
      ensures Valid()
      ensures r.Err? <==> !Owns(old(tasks), id, caller)
      ensures r.Err? ==> r.error == NotFound && tasks == old(tasks)
      ensures r.Ok? ==> tasks == SoftDeleted(old(tasks), id, now)
      ensures users == old(users) && nextUserId == old(nextUserId) && nextTaskId == old(nextTaskId)
    {
      if !Owns(tasks, id, caller) {
        r := Err(NotFound);
        return;
      }
      tasks := SoftDeleted(tasks, id, now);
      r := Ok(());
    }

    /** Brings one of the caller's trashed tasks back to the watchlist. */
    method RestoreTask(caller: nat, id: nat) returns (r: Result<()>)
      requires Valid()
      modifies this
      ensures Valid()
      ensures r == Err(NotFound) <==> !Owns(old(tasks), id, caller)
      ensures r == Err(AlreadyActive) <==> Owns(old(tasks), id, caller) && IsActive(old(tasks)[id])
      ensures r.Ok? <==> Owns(old(tasks), id, caller) && !IsActive(old(tasks)[id])
      ensures r.Err? ==> tasks == old(tasks)
      ensures r.Ok? ==> tasks == Restored(old(tasks), id)
      ensures users == old(users) && nextUserId == old(nextUserId) && nextTaskId == old(nextTaskId)
    {
      if !Owns(tasks, id, caller) {
        r := Err(NotFound);
        return;
      }
      if IsActive(tasks[id]) {
        r := Err(AlreadyActive);
        return;
      }
      tasks := Restored(tasks, id);
      r := Ok(());
    }

    /** Removes one of the caller's tasks for good, trashed or not. */
    method PermanentDelete(caller: nat, id: nat) returns (r: Result<()>)
      requires Valid()
      modifies this
      ensures Valid()
      ensures r.Err? <==> !Owns(old(tasks), id, caller)
      ensures r.Err? ==> r.error == NotFound && tasks == old(tasks)
      ensures r.Ok? ==> tasks == old(tasks) - {id}
      ensures users == old(users) && nextUserId == old(nextUserId) && nextTaskId == old(nextTaskId)
    {
      if !Owns(tasks, id, caller) {
        r := Err(NotFound);
        return;
      }
      tasks := tasks - {id};
      r := Ok(());
    }
  }

  // ---------------------------------------------------------------------
  // What each change does to the lists.

  /** A second registration under a name always finds it taken. */
  lemma RegisteredNameIsTaken(users: map<nat, User>, id: nat, name: string, hash: string)
    ensures UsernameTaken(users[id := User(id, name, hash)], name)
  {
    assert users[id := User(id, name, hash)][id].username == name;
  }

  /** The added task is active, pending and owned by the caller whatever
      status the body carried, and has category "General" unless one is
      given. */
  lemma AddedRecordDefaults(id: nat, caller: nat, req: NewTask)
    requires req.title.Some?
    ensures var rec := AddedRecord(id, caller, req);
      && IsActive(rec) && rec.userId == caller && rec.id == id && rec.title == req.title.value
      && rec.status == Some(DefaultStatus)
      && rec.category == (if req.category.Some? then req.category else Some(DefaultCategory))
      && rec.year == req.year && rec.plot == req.plot && rec.imdbRating == req.imdbRating
      && rec.posterUrl == req.posterUrl && rec.trailerLink == req.trailerLink
  {
  }

  /** The added record is the last of its owner's records in store order. */
  lemma AddedLast(t: map<nat, MovieTask>, n: nat, rec: MovieTask, t2: map<nat, MovieTask>, n2: nat)
    requires Indexed(t, n) && rec.id == n && IsActive(rec) && t2 == t[n := rec] && n2 == n + 1
    ensures Indexed(t2, n2)
    ensures Active(t2, n2, rec.userId) == Active(t, n, rec.userId) + [rec]
    ensures Trash(t2, n2, rec.userId) == Trash(t, n, rec.userId)
  {
    var u := rec.userId;
    RowsFrame(t2, t, n);
    assert Rows(t2, n2) == Rows(t, n) + [rec];
    SelectAppend(Rows(t, n), [rec], OwnedBy(u));
    var m := Mine(t, n, u);
    assert Mine(t2, n2, u) == m + [rec];
    SelectAppend(m, [rec], ActiveOnly);
    SelectAppend(m, [rec], TrashedOnly);
  }

  /** Filtering and reversing a list with one more element at its end. */
  lemma FilteredAppend(a: seq<MovieTask>, rec: MovieTask, q: TaskQuery)
    ensures Reverse(Select(Select(a + [rec], StatusPick(q.status)), CategoryPick(q.category))) ==
            (if MatchesQuery(rec, q) then [rec] else []) +
            Reverse(Select(Select(a, StatusPick(q.status)), CategoryPick(q.category)))
  {
    SelectAppend(a, [rec], StatusPick(q.status));
    var f1 := Select(a, StatusPick(q.status));
    var tail1 := Select([rec], StatusPick(q.status));
    SelectAppend(f1, tail1, CategoryPick(q.category));
    var f := Select(f1, CategoryPick(q.category));
    if MatchesQuery(rec, q) {
      assert tail1 == [rec];
      assert Select(tail1, CategoryPick(q.category)) == [rec];
      ReverseAppend(f, rec);
    } else {
      assert Select(tail1, CategoryPick(q.category)) == [];
      assert f + [] == f;
    }
  }

  /** Adding a task puts it at the head of the owner's newest-first list when
      it passes the filters, and changes nothing else anybody sees. */
  lemma AddEffect(t: map<nat, MovieTask>, n: nat, rec: MovieTask, q: TaskQuery,
                  t2: map<nat, MovieTask>, n2: nat)
    requires Indexed(t, n) && rec.id == n && IsActive(rec) && t2 == t[n := rec] && n2 == n + 1
    requires q.sort != Some("year")
    ensures Indexed(t2, n2)
    ensures ListActive(t2, n2, rec.userId, q) ==
            (if MatchesQuery(rec, q) then [rec] else []) + ListActive(t, n, rec.userId, q)
    ensures Trash(t2, n2, rec.userId) == Trash(t, n, rec.userId)
    ensures forall v :: v != rec.userId ==> SameViews(t2, n2, t, n, v)
  {
    AddedLast(t, n, rec, t2, n2);
    FilteredAppend(Active(t, n, rec.userId), rec, q);
    forall v | v != rec.userId ensures SameViews(t2, n2, t, n, v) {
      OwnerViewsAgree(t2, n2, t, n, v);
    }
  }

  /** After a status or category update the task is still listed where it
      was, now with its new values, and no other user's view changes. */
  lemma UpdateEffect(t: map<nat, MovieTask>, n: nat, u: nat, id: nat, status: Field, category: Field)
    requires Indexed(t, n) && Owns(t, id, u)
    ensures var t2 := Updated(t, id, status, category);
      && Indexed(t2, n)
      && (t2[id] in ListActive(t2, n, u, NoFilter) <==> t[id] in ListActive(t, n, u, NoFilter))
      && (t2[id] in Trash(t2, n, u) <==> t[id] in Trash(t, n, u))
      && (forall k :: k != id ==> (k in t2 <==> k in t) && (k in t ==> t2[k] == t[k]))
      && (forall v :: v != u ==> SameViews(t2, n, t, n, v))
  {
    var t2 := Updated(t, id, status, category);
    ListActiveMembers(t, n, u, NoFilter);
    ListActiveMembers(t2, n, u, NoFilter);
    TrashMembers(t, n, u);
    TrashMembers(t2, n, u);
    forall v | v != u ensures SameViews(t2, n, t, n, v) {
      OwnerViewsAgree(t2, n, t, n, v);
    }
  }

  /** Soft-deleting moves the task from the active list to the trash and
      changes nothing any other user sees. */
  lemma SoftDeleteEffect(t: map<nat, MovieTask>, n: nat, u: nat, id: nat, now: int)
    requires Indexed(t, n) && Owns(t, id, u)
    ensures var t2 := SoftDeleted(t, id, now);
      && Indexed(t2, n)
      && t2[id] in Trash(t2, n, u)
      && (forall q, x :: x in ListActive(t2, n, u, q) ==> x.id != id)
      && (forall v :: v != u ==> SameViews(t2, n, t, n, v))
  {
    var t2 := SoftDeleted(t, id, now);
    TrashMembers(t2, n, u);
    forall q ensures forall x :: x in ListActive(t2, n, u, q) ==> x.id != id {
      ListActiveMembers(t2, n, u, q);
    }
    forall v | v != u ensures SameViews(t2, n, t, n, v) {
      OwnerViewsAgree(t2, n, t, n, v);
    }
  }

  /** Restoring moves a trashed task back to the active list and out of the trash. */
  lemma RestoreEffect(t: map<nat, MovieTask>, n: nat, u: nat, id: nat)
    requires Indexed(t, n) && Owns(t, id, u) && !IsActive(t[id])
    ensures var t2 := Restored(t, id);
      && Indexed(t2, n)
      && t2[id] in ListActive(t2, n, u, NoFilter)
      && (forall x :: x in Trash(t2, n, u) ==> x.id != id)
      && (forall v :: v != u ==> SameViews(t2, n, t, n, v))
  {
    var t2 := Restored(t, id);
    ListActiveMembers(t2, n, u, NoFilter);
    TrashMembers(t2, n, u);
    forall v | v != u ensures SameViews(t2, n, t, n, v) {
      OwnerViewsAgree(t2, n, t, n, v);
    }
  }

  /** Restoring a task that was active before its soft-delete gives back
      the table exactly as it was. */
  lemma RestoreUndoesSoftDelete(t: map<nat, MovieTask>, id: nat, now: int)
    requires id in t && IsActive(t[id])
    ensures Restored(SoftDeleted(t, id, now), id) == t
  {
  }

  /** Soft-deleting twice keeps only the later timestamp. */
  lemma SoftDeleteTwice(t: map<nat, MovieTask>, id: nat, first: int, second: int)
    requires id in t
    ensures SoftDeleted(SoftDeleted(t, id, first), id, second) == SoftDeleted(t, id, second)
  {
  }

  /** A permanently deleted task is in neither list afterwards, and no
      other user's view changes. */
  lemma PermanentDeleteEffect(t: map<nat, MovieTask>, n: nat, u: nat, id: nat)
    requires Indexed(t, n) && Owns(t, id, u)
    ensures var t2 := t - {id};
      && Indexed(t2, n)
      && (forall q, x :: x in ListActive(t2, n, u, q) ==> x.id != id)
      && (forall x :: x in Trash(t2, n, u) ==> x.id != id)
      && (forall v :: v != u ==> SameViews(t2, n, t, n, v))
  {
    var t2 := t - {id};
    TrashMembers(t2, n, u);
    forall q ensures forall x :: x in ListActive(t2, n, u, q) ==> x.id != id {
      ListActiveMembers(t2, n, u, q);
    }
    forall v | v != u ensures SameViews(t2, n, t, n, v) {
      OwnerViewsAgree(t2, n, t, n, v);
    }
  }
}
