/** Rows of the backend's `lists` and `tasks` tables as the task pages see
    them, and the small pieces of JavaScript semantics the pages rely on. */
module Domain {

  datatype Option<T> = None | Some(value: T) {
    /** The value, or `default` when it is null or absent. */
    function GetOr(default: T): T {
      match this
      case Some(v) => v
      case None => default
    }
  }

  /** A row of `lists`. `userId` is only present on realtime payloads. */
  datatype TaskList = TaskList(id: string, name: string, userId: Option<string>)

  /** A row of `tasks`. `listId == None` is a null or absent `list_id`;
      an absent `completed` flag reads as false. */
  datatype Task = Task(id: string, name: string, listId: Option<string>, userId: Option<string>, completed: bool)

  /** Bucket key of the tasks that have no list. */
  const NoList: string := "__nolst__"

  /** The bucket a task belongs in: its list id, or `NoList` when that is null or absent. */
  function BucketKey(t: Task): (r: string)
    ensures t.listId.Some? ==> r == t.listId.value
    ensures t.listId.None? ==> r == NoList
  {
    t.listId.GetOr(NoList)
  }

  /** JavaScript truthiness of a nullable string: null, undefined and "" are falsy. */
  predicate Truthy(s: Option<string>) {
    s.Some? && s.value != ""
  }

  /** The owner filter of the realtime callbacks: an event is dropped when a
      session user id is set and the row's owner differs from it. */
  function Accepts(sessionUserId: Option<string>, owner: Option<string>): (r: bool)
    ensures !Truthy(sessionUserId) ==> r
    ensures Truthy(sessionUserId) ==> (r <==> owner == sessionUserId)
  {
    !(Truthy(sessionUserId) && owner != sessionUserId)
  }

  /** Outcome of one select against the backend. `data` may be null; an
      error is thrown by the page and caught in the same function. */
  datatype Fetch<T> = Fetched(data: Option<seq<T>>) | FetchError(message: string) {
    /** The rows, with null data read as no rows. */
    function Rows(): seq<T>
      requires Fetched?
    {
      data.GetOr([])
    }
  }
}
