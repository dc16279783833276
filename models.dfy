/** The two persisted entities, their column widths and defaults, and the
    dictionary projection a task is answered with. */
module Models {
  import opened Results

  // Declared widths of the bounded string columns; text columns are unbounded.
  const UsernameWidth: nat := 80
  const PasswordHashWidth: nat := 255
  const TitleWidth: nat := 255
  const YearWidth: nat := 10
  const CategoryWidth: nat := 255
  const StatusWidth: nat := 20
  const RatingWidth: nat := 20

  // Column defaults applied on insert when no value is supplied.
  const DefaultCategory: string := "General"
  const DefaultStatus: string := "pending"

  /** A registered account; the password is only ever held as an opaque digest. */
  datatype User = User(id: nat, username: string, passwordHash: string)

  /** One saved movie. A null `deletedAt` means the task is on the watchlist,
      a timestamp means it is in the trash. */
  datatype MovieTask = MovieTask(
    id: nat,
    title: string,
    year: Option<string>,
    plot: Option<string>,
    category: Option<string>,
    status: Option<string>,
    imdbRating: Option<string>,
    posterUrl: Option<string>,
    userId: nat,
    deletedAt: Option<int>,
    trailerLink: Option<string>)

  /** The dictionary a task is serialised to: every column except the owner
      and the trash timestamp. */
  datatype TaskView = TaskView(
    id: nat,
    title: string,
    year: Option<string>,
    plot: Option<string>,
    category: Option<string>,
    status: Option<string>,
    imdbRating: Option<string>,
    posterUrl: Option<string>,
    trailerLink: Option<string>)

  predicate IsActive(t: MovieTask) {
    t.deletedAt.None?
  }

  predicate FitsWidth(v: Option<string>, width: nat) {
    v.None? || |v.value| <= width
  }

  /** The row satisfies the width of every bounded column. */
  predicate FitsColumns(t: MovieTask) {
    && |t.title| <= TitleWidth
    && FitsWidth(t.year, YearWidth)
    && FitsWidth(t.category, CategoryWidth)
    && FitsWidth(t.status, StatusWidth)
    && FitsWidth(t.imdbRating, RatingWidth)
  }

  predicate UserFits(u: User) {
    |u.username| <= UsernameWidth && |u.passwordHash| <= PasswordHashWidth
  }

  /** A column default: on insert, a value that is not supplied (or is null)
      is replaced by the default. */
  function WithDefault(v: Option<string>, default: string): (r: Option<string>)
    ensures r.Some?
    ensures v.Some? ==> r == v
    ensures v.None? ==> r.value == default
  {
    if v.None? then Some(default) else v
  }

  /** A freshly inserted row: the column defaults fill a missing category or
      status, and the task starts out active. */
  function NewMovieTask(id: nat, userId: nat, title: string, year: Option<string>,
                        plot: Option<string>, category: Option<string>, status: Option<string>,
                        imdbRating: Option<string>, posterUrl: Option<string>,
                        trailerLink: Option<string>): (t: MovieTask)
    ensures IsActive(t) && t.id == id && t.userId == userId && t.title == title
    ensures t.category == (if category.None? then Some(DefaultCategory) else category)
    ensures t.status == (if status.None? then Some(DefaultStatus) else status)
  {
    MovieTask(id, title, year, plot, WithDefault(category, DefaultCategory),
              WithDefault(status, DefaultStatus), imdbRating, posterUrl, userId,
              None, trailerLink)
  }

  /** The dictionary projection of a task. */
  function ToDict(t: MovieTask): TaskView {
    TaskView(t.id, t.title, t.year, t.plot, t.category, t.status, t.imdbRating,
             t.posterUrl, t.trailerLink)
  }

  /** Rebuilds a task from its projection and the two hidden columns. */
  function FromDict(v: TaskView, userId: nat, deletedAt: Option<int>): MovieTask {
    MovieTask(v.id, v.title, v.year, v.plot, v.category, v.status, v.imdbRating,
              v.posterUrl, userId, deletedAt, v.trailerLink)
  }

  /** The projection keeps every column but the owner and the trash
      timestamp unchanged: those two are all it loses. */
  lemma ToDictRoundTrip(t: MovieTask)
    ensures FromDict(ToDict(t), t.userId, t.deletedAt) == t
  {
  }

  /** The projection never exposes the owner or the trash state: two tasks
      that differ only there project to the same dictionary. */
  lemma ToDictHidesOwnerAndTrash(t: MovieTask, userId: nat, deletedAt: Option<int>)
    ensures ToDict(t.(userId := userId, deletedAt := deletedAt)) == ToDict(t)
  {
  }
}
