/** The records the tracker keeps: projects, steps, people and links.
    Dates and timestamps are integers; ids are opaque strings. */
module Records {

  type Id = string

  datatype Option<T> = None | Some(value: T)

  /** The outcome of an operation that can throw ("Step not found", ...). */
  datatype Result<T> = Success(value: T) | Failure(error: string)

  /** JavaScript truthiness of an optional string: present and not empty. */
  predicate Present(o: Option<string>)
  {
    o.Some? && o.value != ""
  }

  /** An optional string with a default: the default replaces an absent or empty value. */
  function OrDefault(o: Option<string>, d: string): string
  {
    if Present(o) then o.value else d
  }

  /** An optional string with an empty value turned into no value. */
  function OrNull(o: Option<string>): Option<string>
  {
    if Present(o) then o else None
  }

  /** The value when present, `fallback` otherwise (an array defaulting to empty; a merge field). */
  function OrElse<T>(o: Option<T>, fallback: T): T
  {
    match o
    case Some(v) => v
    case None => fallback
  }

  /** A field after an object-spread merge: the patch's value when it has one, the old value otherwise. */
  predicate Takes<T(==)>(patched: Option<T>, was: T, now: T)
  {
    match patched
    case Some(v) => now == v
    case None => now == was
  }

  datatype Project = Project(
    id: Id,
    title: string,
    status: string,
    priority: string,
    startDate: Option<int>,
    dueDate: Option<int>,
    producerId: Option<Id>,
    directorId: Option<Id>,
    lineProducerId: Option<Id>,
    createdAt: int,
    updatedAt: int)

  datatype Step = Step(
    id: Id,
    projectId: Id,
    phase: string,
    name: string,
    dueDate: Option<int>,
    assigneeIds: seq<Id>,
    status: string,
    notes: string,
    linkedCalendarEventId: Option<Id>,
    linkedDriveFileIds: seq<Id>,
    createdAt: int,
    updatedAt: int)

  datatype Person = Person(
    id: Id,
    name: string,
    email: string,
    role: string,
    createdAt: int)

  /** Links are only ever listed by project and deleted with it. */
  datatype Link = Link(id: Id, projectId: Id)
}
