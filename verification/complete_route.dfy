/** The bulk-complete endpoint (`POST /api/tasks/complete`) as a pure
    classifier: request body, server configuration and the outcome of the
    privileged database update in, HTTP status and JSON body out. */
module CompleteRoute {
  import opened Domain

  /** The `ids` property of the request body. */
  datatype IdsValue = Missing | NotAnArray | IdArray(ids: seq<string>)

  /** The request body once parsed and its `ids` property read.
      `Unreadable` is a body that is not JSON, or the JSON `null` (whose
      destructuring throws); either way an exception with `message` reaches
      the route's catch. */
  datatype RequestBody = Unreadable(message: string) | Parsed(ids: IdsValue)

  /** The two environment variables the route reads. */
  datatype Env = Env(supabaseUrl: Option<string>, serviceRoleKey: Option<string>)

  /** A row returned by the update: only its id is selected. */
  datatype Row = Row(id: string)

  /** What the update against the database produced: rows (possibly null),
      an error object, or an exception (from creating the client or from
      the query itself) with its message. */
  datatype DbOutcome =
    | DbData(data: Option<seq<Row>>)
    | DbError(message: string, details: Option<string>)
    | DbThrew(message: string)

  datatype ResponseBody =
    | ErrorBody(error: string)
    | ErrorWithDetails(error: string, details: Option<string>)
    | UpdatedBody(updated: seq<string>)

  datatype Response = Response(status: int, body: ResponseBody)

  const MissingIdsMessage: string := "Missing task ids"
  const MisconfiguredMessage: string := "Server misconfigured: missing Supabase service role key"

  /** The ids are present, an array, and not empty. */
  predicate HasIds(v: IdsValue) {
    v.IdArray? && |v.ids| > 0
  }

  /** Both the project URL and the service-role key are set and non-empty. */
  predicate Configured(env: Env) {
    Truthy(env.supabaseUrl) && Truthy(env.serviceRoleKey)
  }

  /** The ids of the returned rows, in order. */
  function RowIds(rows: seq<Row>): (r: seq<string>)
    ensures |r| == |rows|
    ensures forall i :: 0 <= i < |rows| ==> r[i] == rows[i].id
  {
    if rows == [] then [] else [rows[0].id] + RowIds(rows[1..])
  }

  function Post(req: RequestBody, env: Env, db: DbOutcome): (r: Response)
    // every exit is one of three statuses
    ensures r.status == 200 || r.status == 400 || r.status == 500
    // an unreadable body is a server error carrying the exception's message
    ensures req.Unreadable? ==> r == Response(500, ErrorBody(req.message))
    // ids are validated first, whatever the configuration and the database say
    ensures r.status == 400 <==> req.Parsed? && !HasIds(req.ids)
    ensures r.status == 400 ==> r.body == ErrorBody(MissingIdsMessage)
    // then the configuration, before the database is touched
    ensures req.Parsed? && HasIds(req.ids) && !Configured(env) ==> r == Response(500, ErrorBody(MisconfiguredMessage))
    // success exactly when ids are given, the server is configured and the update returned rows
    ensures r.status == 200 <==> req.Parsed? && HasIds(req.ids) && Configured(env) && db.DbData?
    ensures r.status == 200 ==> r.body.UpdatedBody? && r.body.updated == RowIds(db.data.GetOr([]))
    ensures r.status == 200 && db.data == None ==> r.body.updated == []
    // a database error is reported with its message and details, null when absent
    ensures req.Parsed? && HasIds(req.ids) && Configured(env) && db.DbError? ==>
              r == Response(500, ErrorWithDetails(db.message, db.details))
    ensures req.Parsed? && HasIds(req.ids) && Configured(env) && db.DbThrew? ==>
              r == Response(500, ErrorBody(db.message))
  {
    match req
    case Unreadable(message) => Response(500, ErrorBody(message))
    case Parsed(ids) =>
      if !HasIds(ids) then Response(400, ErrorBody(MissingIdsMessage))
      else if !Configured(env) then Response(500, ErrorBody(MisconfiguredMessage))
      else
        match db
        case DbThrew(message) => Response(500, ErrorBody(message))
        case DbError(message, details) => Response(500, ErrorWithDetails(message, details))
        case DbData(data) => Response(200, UpdatedBody(RowIds(data.GetOr([]))))
  }

  /** The order of the guards: bad ids give the same 400 whatever the
      configuration and whatever the database would have done. */
  lemma IdsCheckedBeforeConfig(ids: IdsValue, env1: Env, env2: Env, db1: DbOutcome, db2: DbOutcome)
    requires !HasIds(ids)
    ensures Post(Parsed(ids), env1, db1) == Post(Parsed(ids), env2, db2) == Response(400, ErrorBody(MissingIdsMessage))
  {
  }

  /** A misconfigured server answers the same way whatever the database
      would have done: it is never reached. */
  lemma ConfigCheckedBeforeDb(ids: IdsValue, env: Env, db1: DbOutcome, db2: DbOutcome)
    requires HasIds(ids) && !Configured(env)
    ensures Post(Parsed(ids), env, db1) == Post(Parsed(ids), env, db2)
  {
  }
}
