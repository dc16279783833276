# Movie watchlist store, modelled in Dafny

A model of the watchlist service of a small Flask movie tracker. Users
register and save movies to a personal watchlist. Each saved movie (a
`MovieTask`) has a status and a category. It can be moved to a trash,
restored from there, or deleted for good. The service also computes a few
statistics over the active watchlist.

The relational store is replaced by an in-memory `Store` class
(`watchlist.dfy`). It holds four fields:

- `users`: a map from user id to `User`;
- `tasks`: a map from task id to `MovieTask`;
- `nextUserId` and `nextTaskId`: counters that hand out ids in increasing
  order, starting at 1.

The handlers that change the tables are methods of `Store`: registration,
add, update, soft-delete, restore and permanent delete. The read-only
handlers are pure functions of the task table and its counter
(`queries.dfy`): the active list, the trash and the statistics. Every lookup
is scoped by the caller's user id. Errors are values of a `Result` datatype
(`results.dfy`), not HTTP codes. The caller's identity, the current time and
the password digest are plain parameters.

Files:

- `results.dfy`: `Option`, `Result` and the error kinds.
- `models.dfy`: the `User` and `MovieTask` records, column widths and
  defaults, and the `to_dict` projection (`ToDict`).
- `collation.dfy`: the string order used for the `year` column.
- `queries.dfy`: store order, row selection, the active list with its
  filters and sort, the trash, the statistics, and lemmas about them.
- `watchlist.dfy`: the user lookup, login, the `Store` class and its
  methods, and lemmas on what each change does to every user's views.

Choices where the source leaves the behaviour to the database (the store is
taken to be PostgreSQL):

- Strings compare by character code. This is a binary collation.
- Under `sort=year`, a null year sorts before every non-null year. This is
  PostgreSQL's default for a descending order.
- Equal years stay newest first, because the model's insertion sort keeps
  the order it is given.
- A value longer than its `String(n)` column makes the store refuse the row
  (`Rejected`), and nothing changes.
- Store order, used for the trash list, is primary-key order.
- When several categories tie for the largest group, the favourite genre is
  the category of the earliest such task in store order.
- On insert, a null or missing category becomes `"General"`, because the
  ORM leaves out `None` values for columns that have a default. On update, a
  null written explicitly is stored as null.
- Counting the `category` column skips nulls, so the null group has size 0.
  The favourite genre is therefore null only when every active task has a
  null category.

Two behaviours of the handlers worth noting:

- A duplicate registration answers 400, as other bad requests do; the
  model calls this error `UserExists`.
- An added task is always `"pending"`; the handler ignores any status in
  the body.

## Model

| member | source | states |
|---|---|---|
| Models.NewMovieTask | models.py:22-35 | A new row is active, has the given id, owner and title, and gets category "General" and status "pending" when none is supplied |
| Models.ToDictRoundTrip | models.py:38-49 | `to_dict` copies every column unchanged except owner and trash timestamp: the task is rebuilt from the dictionary plus those two |
| Models.ToDictHidesOwnerAndTrash | models.py:38-49 | `to_dict` never exposes `user_id` or `deleted_at`: tasks differing only there give the same dictionary |
| Queries.TopCategory | app.py:206-213 | The favourite is a category occurring among the candidates whose group is at least as large as that of every candidate |
| Queries.FilteredMembers | app.py:128-133 | Before ordering, the selection holds exactly the caller's untrashed tasks passing the non-empty filters, in id order |
| Queries.ListActiveMembers | app.py:128-133 | The active list holds exactly the caller's tasks with null `deleted_at` whose status and category exactly match each filter that is present and non-empty |
| Queries.ListActiveOrder | app.py:135-141 | Without `sort=year` the list is in strictly descending id order (newest first); with it, it is sorted by descending year and holds the same tasks |
| Queries.YearFirstOrder | models.py:27 | The descending-year comparison of the string `year` column is reflexive and antisymmetric (with totality and transitivity, a total order) |
| Queries.SortByYearSorted | app.py:135-136 | Sorting by year yields a descending-year order that is a permutation of its input |
| Queries.TrashMembers | app.py:165-168 | The trash holds exactly the caller's tasks with non-null `deleted_at`, in store order |
| Queries.ActiveAndTrashPartition | app.py:128-168 | The unfiltered active list and the trash together are exactly the caller's tasks, each once |
| Queries.OwnerViewsAgree | app.py:128-213 | A user's active list, trash and statistics depend only on that user's own records |
| Queries.StatsCounts | app.py:192-196 | `total_saved` is the active-list length; watched and pending equal the lengths of the status-filtered lists, and their sum is at most the total |
| Queries.FavouriteGenreIsMostCommon | app.py:205-213 | The favourite genre is "N/A" with no active tasks, otherwise an active task's category with a maximal group; it is null only if no active task has a category |
| Queries.EmptyStats | app.py:192-223 | A user without active tasks gets counts 0, 0, 0 and favourite "N/A" |
| Watchlist.FindByName | app.py:32 | The lookup finds a user with that username exactly when one exists |
| Watchlist.Login | app.py:50-56 | Login succeeds exactly when a user with that name exists and the password check accepts the stored digest, answering that user; otherwise Unauthorized |
| Watchlist.Store.constructor | models.py:7-35 | The store starts with empty user and task tables and both counters at 1 |
| Watchlist.Store.Register | app.py:29-41 | Registration fails with UserExists exactly when the username is taken, and is refused when the row does not fit its columns; otherwise it always succeeds and adds exactly one user under the next id; uniqueness of usernames is preserved |
| Watchlist.RegisteredNameIsTaken | models.py:10 | After a user is stored under a name, that name counts as taken, so registering it again fails |
| Watchlist.Store.AddTask | app.py:103-117 | Adding inserts exactly one record under the next id, built from the body, and answers its dictionary; a null title, an unknown owner or an over-long column is refused with no change |
| Watchlist.AddedRecordDefaults | app.py:103-113 | The added record is active and owned by the caller; its status is "pending" whatever the body says; its category is "General" unless given; the other fields are copied from the body |
| Watchlist.AddEffect | app.py:103-141 | Adding puts the new task at the head of the owner's newest-first list when it matches the filters; the trash and every other user's views are unchanged |
| Watchlist.Store.UpdateTask | app.py:233-241 | An id the caller does not own gives NotFound and no change; an owned task whose updated row fits always succeeds, and then only status and category change, each only when its key is present |
| Watchlist.UpdateEffect | app.py:233-238 | After an update the task stays in the same list, no other record changes, and other users' views are unchanged |
| Watchlist.Store.DeleteTask | app.py:247-250 | Soft-delete of an owned task sets `deleted_at` to the given time, trashed or not; an unowned id gives NotFound and no change |
| Watchlist.SoftDeleteEffect | app.py:247-248 | A soft-deleted task appears in the trash and under no filter in the active list; other users' views are unchanged |
| Watchlist.SoftDeleteTwice | app.py:248 | Soft-deleting twice leaves only the later timestamp |
| Watchlist.Store.RestoreTask | app.py:149-157 | Restore gives NotFound for an unowned id and AlreadyActive for an active task, both with no change; an owned trashed task is always restored, with only `deleted_at` cleared |
| Watchlist.RestoreEffect | app.py:149-154 | A restored task is back in the unfiltered active list and out of the trash; other users' views are unchanged |
| Watchlist.RestoreUndoesSoftDelete | app.py:149-154 | Soft-delete of an active task followed by restore gives back the table exactly as it was (for a task already in the trash, its earlier timestamp is lost) |
| Watchlist.Store.PermanentDelete | app.py:178-181 | Permanent delete removes an owned task whether or not it is trashed; an unowned id gives NotFound and no change |
| Watchlist.PermanentDeleteEffect | app.py:178-180 | After a permanent delete the task is in neither list, and other users' views are unchanged |

## Left out

- HTTP routing, JSON parsing and status codes: handlers take typed arguments and return `Result` values. A request without a JSON body (a server error in the source) is not modelled.
- JSON values that are not strings, such as a number given as a title or status, are not modelled: body fields are optional strings.
- Token issue and validation: the caller's user id is a parameter, and the identity string a token carries is taken to be that id.
- Password hashing: `Register` receives the digest, and `Login` receives the check as a function parameter.
- The movie search (the metadata and trailer lookups): these are network calls to outside services.
- The average IMDb score: it needs a floating-point cast, an SQL average and rounding.
- Database setup, migrations, configuration and the clock: the deletion time is a parameter.
- The per-element `to_dict` step of the list responses: the queries return records, and `ToDict` models the projection of one record.
- Postgres sequence values used up by failed inserts: the model's counter only moves on a successful insert.
- Engine-dependent behaviour: the model fixes one choice for collation, null placement and tie order, as described above.
