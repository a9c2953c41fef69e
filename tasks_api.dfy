/**
  The in-memory tasks API: one request handler over a module-level list of tasks.
  OPTIONS answers any url; GET / describes the server; GET /tasks lists the tasks;
  POST /tasks validates a JSON body and appends a task with a fresh id; DELETE /tasks/:id
  removes the tasks with that id. Every other request is a 404.
 */
module TasksApi {
  import opened JsRuntime

  /**
    A stored task: the object the client posted, with `id` chosen by the server and
    `completed` defaulted to false when the client's value is falsy. `rest` holds the
    client's other properties, which are stored and echoed unchanged.
   */
  datatype Task = Task(id: int, title: string, completed: Value, rest: map<string, Value>)

  /** The body a response carries, before JSON.stringify. */
  datatype Reply =
    | Empty                     // res.end() with no body
    | ServerInfo                // the fixed description of the endpoints
    | TaskList(tasks: seq<Task>)
    | TaskCreated(task: Task)
    | TaskDeleted(id: int)      // { success: true, message: "Task <id> deleted" }
    | ErrorReply(error: string)

  datatype Response = Response(status: int, reply: Reply)

  /** A request as the handler sees it once the body has arrived as a sequence of chunks. */
  datatype Request = Request(verb: string, url: string, chunks: seq<string>)

  const BodyRequired := "Request body is required"
  const TitleRequired := "Title is required and must be a string"
  const InvalidJson := "Invalid JSON format"
  const InvalidTaskId := "Invalid task ID"
  const TaskNotFound := "Task not found"
  const NotFound := "Not Found"

  /** The two tasks the server starts with. */
  const InitialTasks: seq<Task> := [
    Task(1, "Изучить Node.js", Bool(false), map[]),
    Task(2, "Создать API", Bool(false), map[])
  ]

  // ---------------------------------------------------------------------------
  // Routing
  // ---------------------------------------------------------------------------

  datatype Route = Preflight | Info | ListTasks | CreateTask | DeleteTask | NoRoute

  /**
    The route a request takes. OPTIONS wins on every url; GET /, GET /tasks and
    POST /tasks need the exact url; DELETE needs only the prefix "/tasks/".
   */
  function RouteOf(verb: string, url: string): (r: Route)
    ensures r == Preflight <==> verb == "OPTIONS"
    ensures r == Info <==> verb == "GET" && url == "/"
    ensures r == ListTasks <==> verb == "GET" && url == "/tasks"
    ensures r == CreateTask <==> verb == "POST" && url == "/tasks"
    ensures r == DeleteTask <==> verb == "DELETE" && "/tasks/" <= url
  {
    if verb == "OPTIONS" then Preflight
    else if verb == "GET" && url == "/" then Info
    else if verb == "GET" && url == "/tasks" then ListTasks
    else if verb == "POST" && url == "/tasks" then CreateTask
    else if verb == "DELETE" && "/tasks/" <= url then DeleteTask
    else NoRoute
  }

  /** Urls that only look like a route fall through to 404; a bare prefix is enough for DELETE. */
  lemma RouteEdgeCases()
    ensures RouteOf("GET", "/tasks/") == NoRoute
    ensures RouteOf("GET", "/tasks?done=1") == NoRoute
    ensures RouteOf("POST", "/tasks/") == NoRoute
    ensures RouteOf("DELETE", "/tasks") == NoRoute
    ensures RouteOf("DELETE", "/tasks/") == DeleteTask
    ensures RouteOf("DELETE", "/tasks/abc") == DeleteTask
    ensures RouteOf("OPTIONS", "/nowhere") == Preflight
    ensures RouteOf("PUT", "/tasks") == NoRoute
  {
    assert "/tasks/" <= "/tasks/abc";
    assert !("/tasks/" <= "/tasks");
  }

  // ---------------------------------------------------------------------------
  // Creating a task
  // ---------------------------------------------------------------------------

  /** The posted object has a title that is a non-empty string. */
  predicate HasTitle(fields: map<string, Value>) {
    "title" in fields && fields["title"].Str? && fields["title"].s != ""
  }

  /**
    The checks POST /tasks makes, as a specification: a blank body, a body JSON.parse
    rejects, `null` (whose title cannot be read), and anything but an object with a
    non-empty string title are refused. A blank body has its own message; a parse failure
    and `null` share "Invalid JSON format"; every other refusal is about the title.
   */
  function Validate(body: string, parseJson: string -> Option<Value>): (r: Result<map<string, Value>>)
    ensures r == Err(BodyRequired) <==> IsBlank(body)
    ensures r.Ok? <==> !IsBlank(body) && parseJson(body).Some? &&
                       parseJson(body).value.Obj? && HasTitle(parseJson(body).value.fields)
    ensures r.Ok? ==> parseJson(body) == Some(Obj(r.value))
    ensures r.Err? ==> r.message in {BodyRequired, InvalidJson, TitleRequired}
    ensures !IsBlank(body) && (parseJson(body).None? || parseJson(body) == Some(Null)) ==> r == Err(InvalidJson)
    ensures !IsBlank(body) && parseJson(body).Some? && parseJson(body).value != Null && !r.Ok? ==> r == Err(TitleRequired)
  {
    if IsBlank(body) then Err(BodyRequired)
    else match parseJson(body)
      case None => Err(InvalidJson)
      case Some(Null) => Err(InvalidJson)
      case Some(Obj(fields)) => if HasTitle(fields) then Ok(fields) else Err(TitleRequired)
      case Some(_) => Err(TitleRequired)
  }

  /** Some task in the list has this id. */
  predicate HasId(ts: seq<Task>, id: int) {
    exists k :: 0 <= k < |ts| && ts[k].id == id
  }

  /** Every id in the list is greater than x. */
  predicate Above(ts: seq<Task>, x: int) {
    forall k :: 0 <= k < |ts| ==> ts[k].id > x
  }

  /** Math.max over the ids of a non-empty list. */
  function MaxId(ts: seq<Task>): (m: int)
    requires ts != []
    ensures forall k :: 0 <= k < |ts| ==> ts[k].id <= m
    ensures HasId(ts, m)
  {
    if |ts| == 1 then ts[0].id
    else
      var m := MaxId(ts[1..]);
      assert forall k :: 1 <= k < |ts| ==> ts[k] == ts[1..][k - 1];
      if ts[0].id >= m then ts[0].id else m
  }

  /**
    The id a new task gets: one more than the largest id present, or 1 for an empty
    list. It exceeds every id present and is the least number that does.
   */
  function NextId(ts: seq<Task>): (id: int)
    ensures forall k :: 0 <= k < |ts| ==> ts[k].id < id
    ensures ts == [] ==> id == 1
    ensures ts != [] ==> HasId(ts, id - 1)
  {
    (if |ts| > 0 then MaxId(ts) else 0) + 1
  }

  /**
    The stored task made from a posted object: the client's `id` is overwritten,
    a falsy `completed` becomes false and a truthy one is kept as it was sent.
   */
  function NewTask(fields: map<string, Value>, id: int): (t: Task)
    requires HasTitle(fields)
    ensures t.id == id && t.title == fields["title"].s
    ensures Truthy(t.completed) <==> "completed" in fields && Truthy(fields["completed"])
    ensures Truthy(t.completed) ==> t.completed == fields["completed"]
    ensures !Truthy(t.completed) ==> t.completed == Bool(false)
    ensures t.rest.Keys == fields.Keys - {"id", "title", "completed"}
    ensures forall k :: k in t.rest ==> t.rest[k] == fields[k]
  {
    Task(id, fields["title"].s,
         if "completed" in fields && Truthy(fields["completed"]) then fields["completed"] else Bool(false),
         fields - {"id", "title", "completed"})
  }

  // ---------------------------------------------------------------------------
  // Deleting a task
  // ---------------------------------------------------------------------------

  /** `tasks.filter(task => task.id !== id)`. */
  function RemoveId(ts: seq<Task>, id: int): (r: seq<Task>)
    ensures |r| <= |ts|
  {
    if ts == [] then []
    else (if ts[0].id != id then [ts[0]] else []) + RemoveId(ts[1..], id)
  }

  /** The filter keeps exactly the tasks whose id differs. */
  lemma {:induction false} RemoveIdMembers(ts: seq<Task>, id: int)
    ensures forall t :: t in RemoveId(ts, id) <==> t in ts && t.id != id
  {
    if ts != [] {
      RemoveIdMembers(ts[1..], id);
      assert forall t :: t in ts <==> t == ts[0] || t in ts[1..];
    }
  }

  /** The id segment of `/tasks/<segment>[/...]` is the third piece of url.split('/'). */
  lemma {:induction false} TaskUrlSegments(url: string)
    requires "/tasks/" <= url
    ensures |Split(url, '/')| >= 3
    ensures Split(url, '/')[2] == Split(url[7..], '/')[0]
  {
    var rest := url[7..];
    assert url == ['/'] + ("tasks" + (['/'] + rest));
    SplitAtSeparator(rest, '/');
    SplitFirst("tasks", ['/'] + rest, '/');
    SplitAtSeparator("tasks" + (['/'] + rest), '/');
  }

  /** `parseInt(url.split('/')[2])` for a DELETE url; `None` is NaN. */
  function ParseTaskId(url: string): (r: Option<int>)
    requires "/tasks/" <= url
    ensures r == ParseInt(Split(url[7..], '/')[0])
  {
    TaskUrlSegments(url);
    ParseInt(Split(url, '/')[2])
  }

  /** The id of `/tasks/<w>` is parsed from the part of w before its first '/'. */
  lemma TaskIdOfTail(w: string)
    ensures "/tasks/" <= "/tasks/" + w
    ensures ParseTaskId("/tasks/" + w) == ParseInt(Split(w, '/')[0])
  {
    var url := "/tasks/" + w;
    assert url[7..] == w;
    TaskUrlSegments(url);
  }

  /** DELETE /tasks/<n>, possibly followed by more path or a query string, addresses task n. */
  lemma DeleteUrlId(n: nat, suffix: string)
    requires suffix == [] || suffix[0] == '/' || suffix[0] == '?'
    ensures "/tasks/" <= "/tasks/" + Decimal(n) + suffix
    ensures ParseTaskId("/tasks/" + Decimal(n) + suffix) == Some(n)
  {
    UrlAssoc(Decimal(n), suffix);
    SegmentOfTail(Decimal(n), suffix);
    HeadBeforeSlash(suffix);
    ParseIntDecimal(n, Split(suffix, '/')[0]);
  }

  lemma UrlAssoc(pre: string, suffix: string)
    ensures "/tasks/" + pre + suffix == "/tasks/" + (pre + suffix)
  {
  }

  /** The id of `/tasks/<pre><suffix>`, for a `pre` free of '/', is read from pre and the suffix up to its first '/'. */
  lemma SegmentOfTail(pre: string, suffix: string)
    requires forall i :: 0 <= i < |pre| ==> pre[i] != '/'
    ensures "/tasks/" <= "/tasks/" + (pre + suffix)
    ensures ParseTaskId("/tasks/" + (pre + suffix)) == ParseInt(pre + Split(suffix, '/')[0])
    ensures Split(suffix, '/')[0] <= suffix
  {
    TaskIdOfTail(pre + suffix);
    SplitFirst(pre, suffix, '/');
    SplitHead(suffix, '/');
  }

  /**
    A run of decimal digits is read as such: leading zeros are ignored (`/tasks/01` is
    task 1) and what follows the run is dropped (`/tasks/5abc` is task 5).
   */
  lemma DeleteUrlDigits(ds: string, suffix: string)
    requires ds != [] && forall i :: 0 <= i < |ds| ==> IsDigit(ds[i])
    requires suffix == [] || !(IsDigit(suffix[0]) || suffix[0] == 'x' || suffix[0] == 'X')
    ensures "/tasks/" <= "/tasks/" + (ds + suffix)
    ensures ParseTaskId("/tasks/" + (ds + suffix)) == Some(DigitsValue(ds, 10))
  {
    SegmentOfTail(ds, suffix);
    var h := Split(suffix, '/')[0];
    assert h != [] ==> h[0] == suffix[0];
    ParseIntDigits(ds, h);
  }

  /** The id of `/tasks/<a><b><suffix>`, for a and b free of '/', is read from a, b and the suffix up to its first '/'. */
  lemma SegmentOfTail2(a: string, b: string, suffix: string)
    requires forall i :: 0 <= i < |a| ==> a[i] != '/'
    requires forall i :: 0 <= i < |b| ==> b[i] != '/'
    ensures "/tasks/" <= "/tasks/" + (a + (b + suffix))
    ensures ParseTaskId("/tasks/" + (a + (b + suffix))) == ParseInt(a + (b + Split(suffix, '/')[0]))
    ensures Split(suffix, '/')[0] <= suffix
  {
    TaskIdOfTail(a + (b + suffix));
    SplitFirst(a, b + suffix, '/');
    SplitFirst(b, suffix, '/');
    SplitHead(suffix, '/');
  }

  /** A sign in front of the id is read: `/tasks/-1` is id -1 and `/tasks/+2` is id 2. */
  lemma DeleteUrlSigned(n: nat, suffix: string)
    requires suffix == [] || !(IsDigit(suffix[0]) || suffix[0] == 'x' || suffix[0] == 'X')
    ensures "/tasks/" <= "/tasks/" + ("-" + (Decimal(n) + suffix))
    ensures ParseTaskId("/tasks/" + ("-" + (Decimal(n) + suffix))) == Some(-(n as int))
    ensures "/tasks/" <= "/tasks/" + ("+" + (Decimal(n) + suffix))
    ensures ParseTaskId("/tasks/" + ("+" + (Decimal(n) + suffix))) == Some(n)
  {
    SegmentOfTail2("-", Decimal(n), suffix);
    SegmentOfTail2("+", Decimal(n), suffix);
    var h := Split(suffix, '/')[0];
    assert h != [] ==> h[0] == suffix[0];
    ParseIntSignedDecimal(n, h);
  }

  /**
    A `0x` prefix makes the id hexadecimal: `/tasks/0x2` addresses task 2, and `/tasks/0x`
    with no hex digit after it is NaN.
   */
  lemma DeleteUrlHex(ds: string, suffix: string)
    requires forall i :: 0 <= i < |ds| ==> CharValue(ds[i]) < 16
    requires suffix == [] || CharValue(suffix[0]) >= 16
    ensures "/tasks/" <= "/tasks/" + ("0x" + ds + suffix)
    ensures ParseTaskId("/tasks/" + ("0x" + ds + suffix)) == if ds == [] then None else Some(DigitsValue(ds, 16))
  {
    HexDigitsNoSlash(ds);
    HexSegmentOfTail(ds, suffix);
    var h := Split(suffix, '/')[0];
    if ds == [] {
      assert ParseInt("0x" + ds + h) == None by {
        ParseIntHex(ds, h);
      }
    } else {
      assert ParseInt("0x" + ds + h) == Some(DigitsValue(ds, 16)) by {
        ParseIntHex(ds, h);
      }
    }
  }

  lemma HexDigitsNoSlash(ds: string)
    requires forall i :: 0 <= i < |ds| ==> CharValue(ds[i]) < 16
    ensures forall i :: 0 <= i < |ds| ==> ds[i] != '/'
  {
    assert CharValue('/') == 36;
  }

  lemma HexSegmentOfTail(ds: string, suffix: string)
    requires forall i :: 0 <= i < |ds| ==> ds[i] != '/'
    ensures "/tasks/" <= "/tasks/" + ("0x" + ds + suffix)
    ensures ParseTaskId("/tasks/" + ("0x" + ds + suffix)) == ParseInt("0x" + ds + Split(suffix, '/')[0])
    ensures var h := Split(suffix, '/')[0]; h == [] || h[0] == suffix[0]
  {
    var pre := "0x" + ds;
    assert forall i :: 2 <= i < |pre| ==> pre[i] == ds[i - 2];
    SegmentOfTail(pre, suffix);
    SplitHead(suffix, '/');
  }

  /** Under the invariant no task has an id below 1, so a negative or zero id deletes nothing. */
  lemma NonPositiveIdAbsent(ts: seq<Task>, id: int)
    requires WellFormed(ts)
    requires id < 1
    ensures RemoveId(ts, id) == ts
  {
    RemoveIdAbsent(ts, id);
  }
  /** So DELETE `/tasks/-<n>` finds no task: the list is unchanged and the reply is 404. */
  lemma DeleteNegativeNotFound(ts: seq<Task>, n: nat, suffix: string)
    requires WellFormed(ts)
    requires suffix == [] || !(IsDigit(suffix[0]) || suffix[0] == 'x' || suffix[0] == 'X')
    ensures "/tasks/" <= "/tasks/" + ("-" + (Decimal(n) + suffix))
    ensures var id := ParseTaskId("/tasks/" + ("-" + (Decimal(n) + suffix)));
      id.Some? && RemoveId(ts, id.value) == ts
  {
    DeleteUrlSigned(n, suffix);
    NonPositiveIdAbsent(ts, -(n as int));
  }


  /** What a path tail that starts with '/' or '?' leaves before the next '/'. */
  lemma HeadBeforeSlash(suffix: string)
    requires suffix == [] || suffix[0] == '/' || suffix[0] == '?'
    ensures var head := Split(suffix, '/')[0]; head == [] || head[0] == '?'
  {
    if suffix != [] && suffix[0] == '/' {
      assert suffix == ['/'] + suffix[1..];
      SplitAtSeparator(suffix[1..], '/');
    } else if suffix != [] {
      assert suffix == ['?'] + suffix[1..];
      SplitFirst(['?'], suffix[1..], '/');
    }
  }

  /**
    Ids that are not numbers are refused: an empty segment (`/tasks/`, `/tasks//5`)
    or one that starts with a letter or punctuation (`/tasks/abc`).
   */
  lemma DeleteUrlNaN(w: string)
    requires w == [] || w[0] == '/' || (CharValue(w[0]) >= 10 && !IsJsSpace(w[0]) && w[0] != '-' && w[0] != '+')
    ensures "/tasks/" <= "/tasks/" + w
    ensures ParseTaskId("/tasks/" + w) == None
  {
    TaskIdOfTail(w);
    HeadOfNaN(w);
    ParseIntNoDigits(Split(w, '/')[0]);
  }

  /** What such a tail leaves before its first '/': nothing, or a text that starts as it did. */
  lemma HeadOfNaN(w: string)
    requires w == [] || w[0] == '/' || (CharValue(w[0]) >= 10 && !IsJsSpace(w[0]) && w[0] != '-' && w[0] != '+')
    ensures var seg := Split(w, '/')[0]; seg == [] || (w != [] && w[0] != '/' && seg[0] == w[0])
  {
    if w != [] && w[0] == '/' {
      assert w == ['/'] + w[1..];
      SplitAtSeparator(w[1..], '/');
    } else if w != [] {
      assert w == [w[0]] + w[1..];
      SplitFirst([w[0]], w[1..], '/');
    }
  }

  // ---------------------------------------------------------------------------
  // The invariant of the task list
  // ---------------------------------------------------------------------------

  /** Ids are positive and strictly ascending along the list (so pairwise distinct). */
  predicate WellFormed(ts: seq<Task>) {
    (forall i :: 0 <= i < |ts| ==> ts[i].id >= 1) &&
    (forall i, j :: 0 <= i < j < |ts| ==> ts[i].id < ts[j].id)
  }

  lemma InitialWellFormed()
    ensures WellFormed(InitialTasks)
    ensures NextId(InitialTasks) == 3
  {
  }

  /** A list is well formed when its head is positive and below the well-formed rest. */
  lemma WellFormedCons(h: Task, ts: seq<Task>)
    ensures WellFormed([h] + ts) <==> h.id >= 1 && Above(ts, h.id) && WellFormed(ts)
  {
    if WellFormed([h] + ts) {
      WellFormedConsSplits(h, ts);
    }
    if h.id >= 1 && Above(ts, h.id) && WellFormed(ts) {
      WellFormedConsJoins(h, ts);
    }
  }

  lemma WellFormedConsSplits(h: Task, ts: seq<Task>)
    requires WellFormed([h] + ts)
    ensures h.id >= 1 && Above(ts, h.id) && WellFormed(ts)
  {
    var s := [h] + ts;
    assert s[0] == h;
    forall k | 0 <= k < |ts| ensures h.id < ts[k].id {
      assert s[k + 1] == ts[k];
      assert s[0].id < s[k + 1].id;
    }
    forall i, j | 0 <= i < j < |ts| ensures ts[i].id < ts[j].id {
      assert s[i + 1] == ts[i] && s[j + 1] == ts[j];
      assert s[i + 1].id < s[j + 1].id;
    }
  }

  lemma WellFormedConsJoins(h: Task, ts: seq<Task>)
    requires h.id >= 1 && Above(ts, h.id) && WellFormed(ts)
    ensures WellFormed([h] + ts)
  {
    var s := [h] + ts;
    assert s[0] == h;
    forall i | 0 <= i < |s| ensures s[i].id >= 1 {
      if i > 0 {
        assert s[i] == ts[i - 1];
      }
    }
    forall i, j | 0 <= i < j < |s| ensures s[i].id < s[j].id {
      assert s[j] == ts[j - 1];
      if i > 0 {
        assert s[i] == ts[i - 1];
      }
    }
  }

  /** In a well-formed list the largest id is the last one. */
  lemma NextIdOfWellFormed(ts: seq<Task>)
    requires WellFormed(ts) && ts != []
    ensures NextId(ts) == ts[|ts| - 1].id + 1
  {
  }

  /** Appending the task that gets NextId keeps the list well formed. */
  lemma CreateKeepsWellFormed(ts: seq<Task>, t: Task)
    requires WellFormed(ts) && t.id == NextId(ts)
    ensures WellFormed(ts + [t])
  {
    var ts' := ts + [t];
    assert forall k :: 0 <= k < |ts| ==> ts'[k] == ts[k];
  }

  /** Filtering keeps every id above a bound that held before. */
  lemma {:induction false} RemoveKeepsAbove(ts: seq<Task>, x: int, id: int)
    requires Above(ts, x)
    ensures Above(RemoveId(ts, id), x)
  {
    if ts != [] {
      assert Above(ts[1..], x) by {
        assert forall k :: 0 <= k < |ts| - 1 ==> ts[1..][k] == ts[k + 1];
      }
      RemoveKeepsAbove(ts[1..], x, id);
    }
  }

  /** Filtering keeps the list well formed. */
  lemma {:induction false} RemoveKeepsWellFormed(ts: seq<Task>, id: int)
    requires WellFormed(ts)
    ensures WellFormed(RemoveId(ts, id))
  {
    if ts != [] {
      assert ts == [ts[0]] + ts[1..];
      WellFormedCons(ts[0], ts[1..]);
      RemoveKeepsWellFormed(ts[1..], id);
      RemoveKeepsAbove(ts[1..], ts[0].id, id);
      WellFormedCons(ts[0], RemoveId(ts[1..], id));
      assert [] + RemoveId(ts[1..], id) == RemoveId(ts[1..], id);
    }
  }

  /** The filter distributes over concatenation. */
  lemma {:induction false} RemoveIdAppend(a: seq<Task>, b: seq<Task>, id: int)
    ensures RemoveId(a + b, id) == RemoveId(a, id) + RemoveId(b, id)
  {
    if a == [] {
      assert a + b == b;
    } else {
      assert (a + b)[1..] == a[1..] + b;
      RemoveIdAppend(a[1..], b, id);
    }
  }

  /** When no task has the id, the filter changes nothing. */
  lemma {:induction false} RemoveIdAbsent(ts: seq<Task>, id: int)
    requires !HasId(ts, id)
    ensures RemoveId(ts, id) == ts
  {
    if ts != [] {
      assert !HasId(ts[1..], id) by {
        assert forall k :: 0 <= k < |ts| - 1 ==> ts[1..][k] == ts[k + 1];
      }
      RemoveIdAbsent(ts[1..], id);
      assert ts == [ts[0]] + ts[1..];
    }
  }

  /** The list keeps its length under the filter exactly when no task has the id. */
  lemma RemoveIdLength(ts: seq<Task>, id: int)
    ensures |RemoveId(ts, id)| == |ts| <==> !HasId(ts, id)
  {
    if !HasId(ts, id) {
      RemoveIdAbsent(ts, id);
    } else {
      var i :| 0 <= i < |ts| && ts[i].id == id;
      assert ts == ts[..i] + [ts[i]] + ts[i + 1..];
      RemoveIdAppend(ts[..i] + [ts[i]], ts[i + 1..], id);
      RemoveIdAppend(ts[..i], [ts[i]], id);
      assert RemoveId([ts[i]], id) == [];
    }
  }

  /**
    In a well-formed list, deleting the id of the task at position i removes exactly
    that task and keeps the others in their order.
   */
  lemma RemoveIdSplices(ts: seq<Task>, i: nat)
    requires WellFormed(ts) && i < |ts|
    ensures RemoveId(ts, ts[i].id) == ts[..i] + ts[i + 1..]
  {
    SplitAround(ts, i);
    IdsAroundDiffer(ts, i);
    RemoveIdAround(ts[..i], ts[i], ts[i + 1..]);
  }

  lemma SplitAround(ts: seq<Task>, i: nat)
    requires i < |ts|
    ensures ts == ts[..i] + [ts[i]] + ts[i + 1..]
  {
  }

  /** In a well-formed list no task before or after position i has the id of the task at i. */
  lemma IdsAroundDiffer(ts: seq<Task>, i: nat)
    requires WellFormed(ts) && i < |ts|
    ensures !HasId(ts[..i], ts[i].id) && !HasId(ts[i + 1..], ts[i].id)
  {
    var pre, post := ts[..i], ts[i + 1..];
    forall k | 0 <= k < |pre| ensures pre[k].id != ts[i].id {
      assert pre[k] == ts[k];
    }
    forall k | 0 <= k < |post| ensures post[k].id != ts[i].id {
      assert post[k] == ts[i + 1 + k];
    }
  }

  /** The filter drops a task with the id that no task around it has. */
  lemma RemoveIdAround(pre: seq<Task>, t: Task, post: seq<Task>)
    requires !HasId(pre, t.id) && !HasId(post, t.id)
    ensures RemoveId(pre + [t] + post, t.id) == pre + post
  {
    RemoveIdAbsent(pre, t.id);
    RemoveIdAbsent(post, t.id);
    assert RemoveId([t], t.id) == [] by {
      assert [t][1..] == [];
    }
    RemoveIdAppend(pre, [t], t.id);
    assert RemoveId(pre + [t], t.id) == pre by {
      assert pre + [] == pre;
    }
    RemoveIdAppend(pre + [t], post, t.id);
  }

  /**
    Ids are not unique over time: after the task with the largest id is deleted, the
    next task gets one more than the new largest id, which is at most the deleted id.
   */
  lemma NextIdAfterDeletingLast(ts: seq<Task>)
    requires WellFormed(ts) && ts != []
    ensures var m := ts[|ts| - 1].id;
            var id := NextId(RemoveId(ts, m));
            id <= m &&
            id == (if |ts| == 1 then 1 else ts[|ts| - 2].id + 1)
  {
    RemoveLast(ts);
    NextIdOfPrefix(ts);
  }

  /** Deleting the last id of a well-formed list drops just its last task. */
  lemma RemoveLast(ts: seq<Task>)
    requires WellFormed(ts) && ts != []
    ensures RemoveId(ts, ts[|ts| - 1].id) == ts[..|ts| - 1]
  {
    RemoveIdSplices(ts, |ts| - 1);
    assert ts[..|ts| - 1] + ts[|ts|..] == ts[..|ts| - 1];
  }

  /** The id NextId gives once the last task of a well-formed list is gone. */
  lemma NextIdOfPrefix(ts: seq<Task>)
    requires WellFormed(ts) && ts != []
    ensures NextId(ts[..|ts| - 1]) == (if |ts| == 1 then 1 else ts[|ts| - 2].id + 1)
    ensures NextId(ts[..|ts| - 1]) <= ts[|ts| - 1].id
  {
    var r := ts[..|ts| - 1];
    assert forall k :: 0 <= k < |r| ==> r[k] == ts[k];
    if |r| > 0 {
      NextIdOfWellFormed(r);
    }
  }

  /** From the initial state, deleting task 2 makes the next created task take id 2 again. */
  lemma IdReusedAfterDelete()
    ensures NextId(RemoveId(InitialTasks, 2)) == 2
  {
    InitialWellFormed();
    NextIdAfterDeletingLast(InitialTasks);
  }

  // ---------------------------------------------------------------------------
  // The server
  // ---------------------------------------------------------------------------

  /** The request handler together with the module-level `tasks` array it mutates. */
  class TaskServer {
    var tasks: seq<Task>

    ghost predicate Valid()
      reads this
    {
      WellFormed(tasks)
    }

    constructor ()
      ensures Valid() && tasks == InitialTasks
    {
      tasks := InitialTasks;
      InitialWellFormed();
    }

    /** The `end` callback of POST /tasks, given the collected body. */
    method Create(body: string, parseJson: string -> Option<Value>) returns (resp: Response)
      requires Valid()
      modifies this
      ensures Valid()
      ensures match Validate(body, parseJson)
        case Err(message) => resp == Response(400, ErrorReply(message)) && tasks == old(tasks)
        case Ok(fields) =>
          var t := NewTask(fields, NextId(old(tasks)));
          resp == Response(201, TaskCreated(t)) && tasks == old(tasks) + [t]
    {
      ghost var verdict := Validate(body, parseJson);
      TrimEmptyIffBlank(body);
      if Trim(body) == [] {
        assert verdict == Err(BodyRequired);
        resp := Response(400, ErrorReply(BodyRequired));
        return;
      }
      var parsed := parseJson(body);
      if parsed.None? {
        // JSON.parse threw
        assert verdict == Err(InvalidJson);
        resp := Response(400, ErrorReply(InvalidJson));
        return;
      }
      var newTask := parsed.value;
      if newTask.Null? {
        // reading `title` of null throws a TypeError, caught by the same handler
        assert verdict == Err(InvalidJson);
        resp := Response(400, ErrorReply(InvalidJson));
        return;
      }
      var title := Property(newTask, "title");
      if title.None? || !Truthy(title.value) || !title.value.Str? {
        assert verdict == Err(TitleRequired);
        resp := Response(400, ErrorReply(TitleRequired));
        return;
      }
      assert verdict == Ok(newTask.fields);
      var maxId := if |tasks| > 0 then MaxId(tasks) else 0;
      var task := NewTask(newTask.fields, maxId + 1);
      assert task == NewTask(newTask.fields, NextId(tasks));
      CreateKeepsWellFormed(tasks, task);
      tasks := tasks + [task];
      resp := Response(201, TaskCreated(task));
    }

    /** DELETE /tasks/:id. */
    method Delete(url: string) returns (resp: Response)
      requires Valid()
      requires "/tasks/" <= url
      modifies this
      ensures Valid()
      ensures match ParseTaskId(url)
        case None => resp == Response(400, ErrorReply(InvalidTaskId)) && tasks == old(tasks)
        case Some(id) =>
          && tasks == RemoveId(old(tasks), id)
          && (if !HasId(old(tasks), id)
              then resp == Response(404, ErrorReply(TaskNotFound)) && tasks == old(tasks)
              else resp == Response(200, TaskDeleted(id)) && |tasks| == |old(tasks)| - 1)
    {
      var id := ParseTaskId(url);
      if id.None? {
        resp := Response(400, ErrorReply(InvalidTaskId));
        return;
      }
      var initialLength := |tasks|;
      RemoveIdLength(tasks, id.value);
      RemoveKeepsWellFormed(tasks, id.value);
      if i :| 0 <= i < |tasks| && tasks[i].id == id.value {
        RemoveIdSplices(tasks, i);
      } else {
        RemoveIdAbsent(tasks, id.value);
      }
      tasks := RemoveId(tasks, id.value);
      if |tasks| == initialLength {
        resp := Response(404, ErrorReply(TaskNotFound));
      } else {
        resp := Response(200, TaskDeleted(id.value));
      }
    }

    /**
      The whole request handler. Only POST /tasks and DELETE /tasks/:id can change the
      list; every request leaves it well formed, from the initial list on.
     */
    method Handle(req: Request, parseJson: string -> Option<Value>) returns (resp: Response)
      requires Valid()
      modifies this
      ensures Valid()
      ensures match RouteOf(req.verb, req.url)
        case Preflight => resp == Response(200, Empty) && tasks == old(tasks)
        case Info => resp == Response(200, ServerInfo) && tasks == old(tasks)
        case ListTasks => resp == Response(200, TaskList(tasks)) && tasks == old(tasks)
        case NoRoute => resp == Response(404, ErrorReply(NotFound)) && tasks == old(tasks)
        case CreateTask =>
          (match Validate(Concat(req.chunks), parseJson)
           case Err(message) => resp == Response(400, ErrorReply(message)) && tasks == old(tasks)
           case Ok(fields) =>
             var t := NewTask(fields, NextId(old(tasks)));
             resp == Response(201, TaskCreated(t)) && tasks == old(tasks) + [t])
        case DeleteTask =>
          (match ParseTaskId(req.url)
           case None => resp == Response(400, ErrorReply(InvalidTaskId)) && tasks == old(tasks)
           case Some(id) =>
             && tasks == RemoveId(old(tasks), id)
             && (if !HasId(old(tasks), id)
                 then resp == Response(404, ErrorReply(TaskNotFound))
                 else resp == Response(200, TaskDeleted(id))))
    {
      var verb, url := req.verb, req.url;
      if verb == "OPTIONS" {
        resp := Response(200, Empty);
        return;
      }
      if verb == "GET" && url == "/" {
        resp := Response(200, ServerInfo);
      } else if verb == "GET" && url == "/tasks" {
        resp := Response(200, TaskList(tasks));
      } else if verb == "POST" && url == "/tasks" {
        var body := CollectBody(req.chunks);
        resp := Create(body, parseJson);
      } else if verb == "DELETE" && "/tasks/" <= url {
        resp := Delete(url);
      } else {
        resp := Response(404, ErrorReply(NotFound));
      }
    }
  }
}
