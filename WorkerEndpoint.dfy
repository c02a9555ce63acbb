/**
 * `WorkerEndpoint`: the worker's HTTP handler under `/tasks`. The model
 * is the routing decision: which status code and which body a request gets,
 * given what the three callbacks the endpoint was built with return. A
 * callback that throws is an `Err`; `taskDetailsProvider` returning `null`
 * is `Ok(None)`. JSON encoding of the bodies is not modelled: a body is the
 * value the endpoint would serialize, or the error text it sends.
 */
module WorkerEndpoints {
  import opened Wrappers
  import opened JavaInt
  import opened JavaString

  const STATUS_OK := 200
  const STATUS_BAD_REQUEST := 400
  const STATUS_NOT_FOUND := 404
  const STATUS_METHOD_NOT_ALLOWED := 405

  /** What a response carries: one task, the list of all tasks, or an error message. */
  datatype Body<D, L> = Details(details: D) | Tasks(tasks: L) | Message(text: string)

  datatype Response<D, L> = Response(status: int, body: Body<D, L>)

  /** `e.getMessage()` as string concatenation shows it: "null" when the exception has none. */
  function MessageOf(e: JavaError): string {
    match e
    case IllegalArgument(m) => m
    case IllegalState(m) => m
    case IO(_, m) => m
    case Runtime(m) => if m == "" then "null" else m
    case _ => "null"
  }

  /** `handleCreateTask`: `created` is the outcome of parsing the body and calling `taskCreator`. */
  function HandleCreateTask<D, L>(created: Result<D>): (r: Response<D, L>)
    ensures created.Ok? ==> r == Response(STATUS_OK, Details(created.value))
    ensures created.Err? ==> r == Response(STATUS_BAD_REQUEST, Message("Failed to create task: " + MessageOf(created.error)))
  {
    match created
    case Ok(d) => Response(STATUS_OK, Details(d))
    case Err(e) => Response(STATUS_BAD_REQUEST, Message("Failed to create task: " + MessageOf(e)))
  }

  /** `handleRetrieveAllTasks`: `all` is the outcome of `allTasksProvider.get()`. */
  function HandleRetrieveAllTasks<D, L>(all: Result<L>): (r: Response<D, L>)
    ensures all.Ok? ==> r == Response(STATUS_OK, Tasks(all.value))
    ensures all.Err? ==> r == Response(STATUS_BAD_REQUEST, Message("Failed to retrieve tasks: " + MessageOf(all.error)))
  {
    match all
    case Ok(tasks) => Response(STATUS_OK, Tasks(tasks))
    case Err(e) => Response(STATUS_BAD_REQUEST, Message("Failed to retrieve tasks: " + MessageOf(e)))
  }

  /**
   * `handleRetrieveTaskById`: the id text must parse as an `int`; the
   * provider is then asked for that id only.
   */
  function HandleRetrieveTaskById<D, L>(idText: string, provider: int -> Result<Option<D>>): (r: Response<D, L>)
    ensures ParseInt(idText).None? ==> r == Response(STATUS_BAD_REQUEST, Message("Invalid task ID format: " + idText))
    ensures ParseInt(idText).Some? ==>
      var id := ParseInt(idText).value;
      match provider(id)
      case Ok(Some(d)) => r == Response(STATUS_OK, Details(d))
      case Ok(None) => r == Response(STATUS_NOT_FOUND, Message("Task not found for ID: " + IntToString(id)))
      case Err(e) => r == Response(STATUS_BAD_REQUEST, Message("Failed to retrieve task: " + MessageOf(e)))
  {
    match ParseInt(idText)
    case None => Response(STATUS_BAD_REQUEST, Message("Invalid task ID format: " + idText))
    case Some(id) =>
      match provider(id)
      case Ok(Some(d)) => Response(STATUS_OK, Details(d))
      case Ok(None) => Response(STATUS_NOT_FOUND, Message("Task not found for ID: " + IntToString(id)))
      case Err(e) => Response(STATUS_BAD_REQUEST, Message("Failed to retrieve task: " + MessageOf(e)))
  }

  /**
   * `handleRetrieveTask`: the path is cut at '/' as `String.split` does;
   * two segments list every task, three segments with a non-empty last one
   * name a task, anything else is a bad request.
   */
  function HandleRetrieveTask<D, L>(path: string, all: Result<L>, provider: int -> Result<Option<D>>): (r: Response<D, L>)
    ensures |Split(path, '/')| == 2 ==> r == HandleRetrieveAllTasks(all)
    ensures |Split(path, '/')| == 3 && Split(path, '/')[2] != "" ==> r == HandleRetrieveTaskById(Split(path, '/')[2], provider)
    ensures !(|Split(path, '/')| == 2 || (|Split(path, '/')| == 3 && Split(path, '/')[2] != "")) ==>
      r == Response(STATUS_BAD_REQUEST, Message("Invalid request path"))
  {
    var segments := Split(path, '/');
    if |segments| == 2 then HandleRetrieveAllTasks(all)
    else if |segments| == 3 && segments[2] != "" then HandleRetrieveTaskById(segments[2], provider)
    else Response(STATUS_BAD_REQUEST, Message("Invalid request path"))
  }

  /**
   * `TasksHandler.handle`: the method name, upper-cased, selects creation
   * (PUT) or retrieval (GET); every other method is refused with 405.
   * `created` is what a PUT would get from parsing its body and calling
   * `taskCreator`.
   */
  function Handle<D, L>(requestMethod: string, path: string, created: Result<D>, all: Result<L>,
                        provider: int -> Result<Option<D>>): (r: Response<D, L>)
    ensures r.status in {STATUS_OK, STATUS_BAD_REQUEST, STATUS_NOT_FOUND, STATUS_METHOD_NOT_ALLOWED}
    ensures ToUpperCase(requestMethod) == "PUT" ==> r == HandleCreateTask(created)
    ensures ToUpperCase(requestMethod) == "GET" ==> r == HandleRetrieveTask(path, all, provider)
    ensures ToUpperCase(requestMethod) !in {"PUT", "GET"} <==> r.status == STATUS_METHOD_NOT_ALLOWED
    ensures r.status == STATUS_METHOD_NOT_ALLOWED ==> r.body == Message("Method Not Allowed")
  {
    var m := ToUpperCase(requestMethod);
    if m == "PUT" then HandleCreateTask(created)
    else if m == "GET" then HandleRetrieveTask(path, all, provider)
    else Response(STATUS_METHOD_NOT_ALLOWED, Message("Method Not Allowed"))
  }

  /** A PUT answers 200 with the created task exactly when creation succeeds. */
  lemma CreateSucceedsIffCreated<D, L>(requestMethod: string, path: string, created: Result<D>, all: Result<L>,
                                       provider: int -> Result<Option<D>>)
    requires ToUpperCase(requestMethod) == "PUT"
    ensures var r := Handle(requestMethod, path, created, all, provider);
      (r.status == STATUS_OK <==> created.Ok?) && (r.status != STATUS_OK ==> r.status == STATUS_BAD_REQUEST)
  {
  }

  /** The method name is matched without regard to the case of its letters. */
  lemma MethodCaseInsensitive<D, L>(path: string, created: Result<D>, all: Result<L>, provider: int -> Result<Option<D>>)
    ensures Handle("put", path, created, all, provider) == Handle("PUT", path, created, all, provider)
    ensures Handle("get", path, created, all, provider) == Handle("Get", path, created, all, provider)
    ensures Handle("POST", path, created, all, provider).status == STATUS_METHOD_NOT_ALLOWED
  {
    assert ToUpperCase("put") == "PUT";
    assert ToUpperCase("get") == "GET" && ToUpperCase("Get") == "GET";
    assert ToUpperCase("POST") == "POST";
  }

  /** Cutting at the first separator: the piece before it, then the pieces of the rest. */
  lemma SplitAllAfter(a: string, c: char, b: string)
    requires c !in a
    ensures SplitAll(a + [c] + b, c) == [a] + SplitAll(b, c)
  {
    IndexOfAfter(a, c, b);
    var s := a + [c] + b;
    assert s[..|a|] == a;
    assert s[|a| + 1..] == b;
  }

  /** A path is its segments joined with '/'; a leading '/' makes the first segment empty. */
  lemma JoinedPath(context: string, id: string)
    ensures Join(["", context], '/') == "/" + context
    ensures Join(["", context, ""], '/') == "/" + context + "/"
    ensures Join(["", context, id], '/') == "/" + context + "/" + id
    ensures Join(["", context, id, ""], '/') == "/" + context + "/" + id + "/"
  {
    assert ["", context][1..] == [context];
    assert Join([context, ""], '/') == context + "/" by { assert [context, ""][1..] == [""]; }
    assert ["", context, ""][1..] == [context, ""];
    assert Join([id, ""], '/') == id + "/" by { assert [id, ""][1..] == [""]; }
    assert Join([context, id], '/') == context + "/" + id by { assert [context, id][1..] == [id]; }
    assert ["", context, id][1..] == [context, id];
    assert Join([context, id, ""], '/') == context + "/" + (id + "/") by {
      assert [context, id, ""][1..] == [id, ""];
    }
    assert ["", context, id, ""][1..] == [context, id, ""];
  }

  /** A trailing '/' adds one empty segment, which `split` drops. */
  lemma TrailingSlashDropped(segments: seq<string>)
    requires |segments| >= 2 && segments[|segments| - 1] != ""
    requires forall i :: 0 <= i < |segments| ==> '/' !in segments[i]
    ensures Split(Join(segments + [""], '/'), '/') == segments
  {
    var all := segments + [""];
    SplitAllJoin(all, '/');
    JoinHasSeparator(all, '/');
    assert all[..|all| - 1] == segments;
  }

  /**
   * The handler is registered for the context "/tasks"; `context` stands for
   * its name, a non-empty segment without '/'. Both "/" + context and
   * "/" + context + "/" have the two segments that list every task.
   */
  lemma ContextPathSegments(context: string)
    requires context != "" && '/' !in context
    ensures Split("/" + context, '/') == ["", context]
    ensures Split("/" + context + "/", '/') == ["", context]
  {
    JoinedPath(context, "");
    SplitJoin(["", context], '/');
    assert ["", context] + [""] == ["", context, ""];
    TrailingSlashDropped(["", context]);
  }

  /** The segments of "/" + context + "/" + id, with or without a trailing '/', for an id without '/'. */
  lemma IdPathSegments(context: string, id: string)
    requires context != "" && '/' !in context
    requires id != "" && '/' !in id
    ensures Split("/" + context + "/" + id, '/') == ["", context, id]
    ensures Split("/" + context + "/" + id + "/", '/') == ["", context, id]
  {
    JoinedPath(context, id);
    SplitJoin(["", context, id], '/');
    assert ["", context, id] + [""] == ["", context, id, ""];
    TrailingSlashDropped(["", context, id]);
  }

  /** GET on the context path lists every task, with or without a trailing '/'. */
  lemma ListRoute<D, L>(context: string, all: Result<L>, provider: int -> Result<Option<D>>)
    requires context != "" && '/' !in context
    ensures Handle("GET", "/" + context, Err(NullPointer), all, provider) == HandleRetrieveAllTasks(all)
    ensures Handle("GET", "/" + context + "/", Err(NullPointer), all, provider) == HandleRetrieveAllTasks(all)
  {
    assert ToUpperCase("GET") == "GET";
    ContextPathSegments(context);
  }

  /** GET on context/id fetches that id, and a trailing '/' does not change the answer. */
  lemma IdRoute<D, L>(context: string, id: string, all: Result<L>, provider: int -> Result<Option<D>>)
    requires context != "" && '/' !in context
    requires id != "" && '/' !in id
    ensures Handle("GET", "/" + context + "/" + id + "/", Err(NullPointer), all, provider)
         == Handle("GET", "/" + context + "/" + id, Err(NullPointer), all, provider)
         == HandleRetrieveTaskById(id, provider)
  {
    assert ToUpperCase("GET") == "GET";
    IdPathSegments(context, id);
  }

  /**
   * GET context/n asks the provider for task n: 200 with the task, 404 when
   * there is none, 400 when the provider throws.
   */
  lemma FetchById<D, L>(context: string, n: int, all: Result<L>, provider: int -> Result<Option<D>>)
    requires context != "" && '/' !in context
    requires IsInt32(n)
    ensures var r := Handle("GET", "/" + context + "/" + IntToString(n), Err(NullPointer), all, provider);
      match provider(n)
      case Ok(Some(d)) => r == Response(STATUS_OK, Details(d))
      case Ok(None) => r == Response(STATUS_NOT_FOUND, Message("Task not found for ID: " + IntToString(n)))
      case Err(e) => r == Response(STATUS_BAD_REQUEST, Message("Failed to retrieve task: " + MessageOf(e)))
  {
    var id := IntToString(n);
    assert forall i :: 0 <= i < |id| ==> id[i] == '-' || IsDigit(id[i]);
    IdRoute(context, id, all, provider);
    IntStringRoundTrip(n);
  }

  /** An id that is not a decimal `int` is refused before the provider is asked. */
  lemma MalformedIdRejected<D, L>(context: string, id: string, all: Result<L>, provider: int -> Result<Option<D>>)
    requires context != "" && '/' !in context
    requires id != "" && '/' !in id && ParseInt(id) == None
    ensures Handle("GET", "/" + context + "/" + id, Err(NullPointer), all, provider)
         == Response(STATUS_BAD_REQUEST, Message("Invalid task ID format: " + id))
  {
    IdRoute(context, id, all, provider);
  }

  /** GET "/" has no segments at all and is a bad request. */
  lemma RootRejected<D, L>(all: Result<L>, provider: int -> Result<Option<D>>)
    ensures Handle("GET", "/", Err(NullPointer), all, provider) == Response(STATUS_BAD_REQUEST, Message("Invalid request path"))
  {
    assert |Split("/", '/')| == 0 by {
      assert "/" == "" + ['/'] + "";
      SplitAllAfter("", '/', "");
    }
    assert ToUpperCase("GET") == "GET";
  }
}
