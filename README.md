# Node.js tutorial servers and scripts: a Dafny model

The repository is a set of Node.js teaching scripts. This project models the parts of it
that hold logic of their own, and proves what that logic promises.

- **Tasks API** (`modules_2/http.js`). One `createServer` handler keeps a module-level
  list of tasks. Requests are routed as follows:
  - OPTIONS on any url is a preflight;
  - GET `/` describes the server;
  - GET `/tasks` lists the tasks;
  - POST `/tasks` checks the JSON body and appends a task whose id is one more than the
    largest id present;
  - DELETE `/tasks/:id` parses the id with `parseInt` and filters the list;
  - everything else is a 404.

  The model is the class `TasksApi.TaskServer`, a `seq<Task>` field with the methods
  `Create`, `Delete` and `Handle`. Their contracts are stated through the specification
  functions `RouteOf`, `Validate`, `NextId`, `NewTask`, `RemoveId` and `ParseTaskId`. The
  class invariant `WellFormed` says that ids are positive and strictly ascending, so they
  are pairwise distinct. The constructor establishes it from the two initial tasks, and
  every request keeps it.
- **Comments server** (`http/index.js`, `http/handlers.js`).
  - `CommentsRouter.Dispatch` is the exact-match if/else chain from (method, url) to a
    handler. It is proved equal to a lookup in a route table.
  - `CommentHandlers.CommentBoard` holds the shared `comments` array. `PostComments` reads
    the body according to the exact Content-Type and appends what the parser returns.
  - Two status quirks of the handlers are reproduced as written. The unsupported branch of
    postComments assigns `req.statusCode = 400`, so the response keeps Node's default status
    200. notFound writes `res.statusCode === 404`, a comparison, so its page also goes out
    with status 200. The 400 written to the request is returned as `reqStatusCode`, so the
    contract can state it.
- **Chunk transforms** (`stream/stdin-stdout.mjs`). The upper-casing stream and the
  "reverse all but the last character" stream become pure functions on strings. `Output`
  is the pipeline over a sequence of chunks.
- **Iterative Fibonacci** (`fibonacci.js`). `fibLin` becomes a method with the same loop,
  proved against the recursive definition.
- **JavaScript runtime pieces** (`JsRuntime`):
  - JSON values and truthiness;
  - the ECMAScript whitespace set used by `trim`;
  - `parseInt`, with sign, `0x` prefix, longest digit run and NaN as `None`;
  - `split` on one character;
  - `body += chunk` accumulation.

  Foreign parsers (`JSON.parse`, `querystring.parse`) are function parameters returning
  `Option`. `None` stands for "threw".

## Model

| member | source | states |
|---|---|---|
| JsRuntime.Property | modules_2/http.js:116 | reading a property of a non-null value yields the field exactly when the value is an object with that key; otherwise it is undefined |
| JsRuntime.TrimStart | modules_2/http.js:108 | the result is a suffix of the input; what was removed is all whitespace; the result does not start with whitespace |
| JsRuntime.TrimEnd | modules_2/http.js:108 | the result is a prefix of the input; what was removed is all whitespace; the result does not end with whitespace |
| JsRuntime.Trim | modules_2/http.js:108 | `body.trim()` is no longer than the body and neither starts nor ends with whitespace; TrimEmptyIffBlank gives when it is empty |
| JsRuntime.TrimEmptyIffBlank | modules_2/http.js:108 | `!body.trim()` holds exactly when the body is empty or made only of whitespace |
| JsRuntime.CharValue | modules_2/http.js:138 | the digit value parseInt gives a character is at most 36, the value that no radix accepts |
| JsRuntime.LeadingDigits | modules_2/http.js:138 | the longest prefix of digits in the radix: a prefix, all digits, not followed by another digit |
| JsRuntime.ParseUnsigned | modules_2/http.js:138 | a number parseInt reads after the sign is never negative |
| JsRuntime.ParseInt | modules_2/http.js:138 | parseInt: a blank text is NaN, and a negative result needs a leading `-` after the whitespace. The lemmas below give its value for a decimal rendering (ParseIntDecimal), a digit run with leading zeros or trailing letters (ParseIntDigits), a `-` or `+` sign (ParseIntSign, ParseIntSignedDecimal), a `0x` prefix (ParseIntHex) and a segment with no leading sign, space or digit (ParseIntNoDigits). Leading whitespace, which a request url cannot hold, has no lemma of its own |
| JsRuntime.ParseIntNoDigits | modules_2/http.js:138-140 | a segment that is empty, or starts with a character that is neither whitespace, sign nor decimal digit, is NaN |
| JsRuntime.Decimal | modules_2/http.js:138 | the decimal form of an id as a client writes it in a url is non-empty, all digits, and has a leading zero only for 0 |
| JsRuntime.DecimalValue | modules_2/http.js:138 | the digits of the rendering have the number as their value |
| JsRuntime.LeadingDigitsOfRun | modules_2/http.js:138 | parseInt stops exactly at the end of a run of digits |
| JsRuntime.ParseIntDecimal | modules_2/http.js:138 | round trip: parseInt reads back the decimal rendering of n whatever follows it, unless that continues the number or forms a hex prefix |
| JsRuntime.ParseUnsignedDecimal | modules_2/http.js:138 | the same round trip, after the sign |
| JsRuntime.ParseIntUnsigned | modules_2/http.js:138 | with no whitespace or sign in front, parseInt is the unsigned reading |
| JsRuntime.ParseIntSign | modules_2/http.js:138 | one sign is read: `-` negates the unsigned reading and keeps NaN as NaN, `+` leaves it as it is |
| JsRuntime.ParseUnsignedDigits | modules_2/http.js:138 | a run of decimal digits, leading zeros allowed, is read in radix 10 up to the first character that does not continue it |
| JsRuntime.ParseIntDigits | modules_2/http.js:138 | the same for parseInt: `5abc` is 5 and `01` has the value of its digits |
| JsRuntime.LeadingZero | modules_2/http.js:138 | a leading zero does not change the value of a digit string, so `01` is 1 |
| JsRuntime.ParseIntSignedDecimal | modules_2/http.js:138 | `-n` reads back as -n and `+n` as n, under the same condition on what follows |
| JsRuntime.ParseUnsignedHex | modules_2/http.js:138 | after `0x` or `0X` the longest run of hex digits is read in radix 16; with no hex digit after the prefix the result is NaN |
| JsRuntime.ParseIntHex | modules_2/http.js:138 | the same for parseInt of a text that starts with `0x` |
| JsRuntime.Split | modules_2/http.js:138 | split gives at least one piece and no piece contains the separator |
| JsRuntime.JoinSplit | modules_2/http.js:138 | joining the pieces with the separator gives the url back, so no character is lost |
| JsRuntime.SplitFirst | modules_2/http.js:138 | a separator-free prefix only extends the first piece |
| JsRuntime.SplitHead | modules_2/http.js:138 | the first piece of a split is a prefix of the text, so it is empty or starts with the text's first character |
| JsRuntime.SplitAtSeparator | modules_2/http.js:138 | a leading separator yields an empty first piece, and the rest splits as before |
| JsRuntime.ConcatAppend | http/handlers.js:45 | the body accumulated from two runs of chunks is the concatenation of the two bodies |
| JsRuntime.CollectBody | modules_2/http.js:104-105 | the `data` callback appends every chunk, in arrival order; the result is the concatenation of the chunks |
| TasksApi.RouteOf | modules_2/http.js:79-160 | OPTIONS wins on every url; GET `/`, GET `/tasks` and POST `/tasks` need the exact url; DELETE needs only the `/tasks/` prefix; anything else gets no route. Each is stated as an if-and-only-if |
| TasksApi.RouteEdgeCases | modules_2/http.js:98-160 | `/tasks/` and query strings do not match GET or POST; DELETE `/tasks` is a 404; DELETE `/tasks/` and `/tasks/abc` reach the delete branch |
| TasksApi.Validate | modules_2/http.js:108-133 | "Request body is required" exactly for blank bodies; success exactly for a non-blank body that parses to an object with a non-empty string title, whose fields are the result; a non-blank body that JSON.parse rejects, or that is `null`, gets "Invalid JSON format"; any other refused value gets "Title is required and must be a string" |
| TasksApi.MaxId | modules_2/http.js:123 | `Math.max` of the ids bounds every id and is one of them |
| TasksApi.NextId | modules_2/http.js:123-124 | the new id exceeds every id present; it is 1 for an empty list; otherwise it is one more than an id present, so it is the least such number |
| TasksApi.NewTask | modules_2/http.js:124-126 | the client's id is overwritten and its title kept; `completed` is truthy exactly when the client's value was, is then the value the client sent, and is `false` otherwise; every other property is kept, with the value the client sent |
| TasksApi.RemoveId | modules_2/http.js:147 | the filter never lengthens the list |
| TasksApi.RemoveIdMembers | modules_2/http.js:147 | a task is in the filtered list exactly when it was in the list and has another id |
| TasksApi.TaskUrlSegments | modules_2/http.js:138 | a url starting with `/tasks/` has a third split piece, namely the part after the prefix up to the next `/` |
| TasksApi.ParseTaskId | modules_2/http.js:138 | `parseInt(url.split('/')[2])` is parseInt of the text after `/tasks/` up to the next `/`. The DeleteUrl lemmas give its value for a decimal id (DeleteUrlId), a digit run with leading zeros or trailing letters (DeleteUrlDigits), a signed id (DeleteUrlSigned), a `0x` id (DeleteUrlHex) and a segment with no leading sign, space or digit (DeleteUrlNaN) |
| TasksApi.TaskIdOfTail | modules_2/http.js:138 | the id of `/tasks/<w>` is parsed from the part of w before its first `/` |
| TasksApi.DeleteUrlId | modules_2/http.js:137-138 | `/tasks/<n>` addresses task n, also when followed by more path or a query string |
| TasksApi.SegmentOfTail | modules_2/http.js:138 | for a part free of `/`, the id of `/tasks/<part><rest>` is parseInt of the part followed by the rest up to its first `/` |
| TasksApi.SegmentOfTail2 | modules_2/http.js:138 | the same for two such parts in a row |
| TasksApi.DeleteUrlDigits | modules_2/http.js:137-138 | a run of decimal digits is read as such: `/tasks/01` is task 1 and `/tasks/5abc` is task 5 |
| TasksApi.DeleteUrlSigned | modules_2/http.js:137-138 | a sign before the id is read: `/tasks/-1` is id -1 and `/tasks/+2` is id 2 |
| TasksApi.HexDigitsNoSlash | modules_2/http.js:138 | hex digits contain no `/` |
| TasksApi.HexSegmentOfTail | modules_2/http.js:138 | the id of `/tasks/0x<digits><rest>` is parseInt of `0x`, the digits and the rest up to its first `/` |
| TasksApi.DeleteUrlHex | modules_2/http.js:137-138 | a `0x` prefix makes the id hexadecimal: `/tasks/0x2` deletes task 2; `/tasks/0x` with no hex digit after it is NaN and gets the 400 branch |
| TasksApi.NonPositiveIdAbsent | modules_2/http.js:147-149 | under the invariant no task has an id below 1, so filtering by such an id changes nothing |
| TasksApi.DeleteNegativeNotFound | modules_2/http.js:137-152 | DELETE `/tasks/-<n>` reads id -n, finds no task, and leaves the list unchanged, so the reply is the 404 |
| TasksApi.HeadBeforeSlash | modules_2/http.js:138 | for a tail starting with `/` or `?`, the piece before its first `/` is empty or starts with `?`, so parseInt reads nothing more |
| TasksApi.DeleteUrlNaN | modules_2/http.js:137-144 | an id segment that is empty, or starts with a character other than whitespace, a sign or a digit, gives NaN and the 400 branch: `/tasks/`, `/tasks//5`, `/tasks/abc` |
| TasksApi.HeadOfNaN | modules_2/http.js:138 | the segment parsed is empty or starts with the tail's first character |
| TasksApi.InitialWellFormed | modules_2/http.js:64-67 | the initial tasks have ascending positive ids, and the next id is 3 |
| TasksApi.WellFormedCons | modules_2/http.js:64-67 | a list is well formed exactly when its head is positive, below all the rest, and the rest is well formed |
| TasksApi.WellFormedConsSplits | modules_2/http.js:64-67 | the direction from a well-formed list to its head and rest |
| TasksApi.WellFormedConsJoins | modules_2/http.js:64-67 | the direction from head and rest to a well-formed list |
| TasksApi.NextIdOfWellFormed | modules_2/http.js:123 | in a well-formed list the next id is the last id plus one |
| TasksApi.CreateKeepsWellFormed | modules_2/http.js:123-126 | appending the task with the next id keeps ids distinct and ascending |
| TasksApi.RemoveKeepsAbove | modules_2/http.js:147 | the filter keeps every id above a bound that held before |
| TasksApi.RemoveKeepsWellFormed | modules_2/http.js:147 | the filter keeps ids distinct and ascending |
| TasksApi.RemoveIdAppend | modules_2/http.js:147 | the filter distributes over concatenation, so it keeps the order of the kept tasks |
| TasksApi.RemoveIdAbsent | modules_2/http.js:147-151 | when no task has the id, the list is unchanged |
| TasksApi.RemoveIdLength | modules_2/http.js:146-155 | the length is unchanged exactly when no task has the id, so the length test picks 404 exactly for a missing task |
| TasksApi.RemoveIdSplices | modules_2/http.js:147 | in a well-formed list, deleting the id at position i removes that task alone and keeps the others in order |
| TasksApi.IdsAroundDiffer | modules_2/http.js:147 | in a well-formed list no other task shares the id of the task at position i |
| TasksApi.RemoveIdAround | modules_2/http.js:147 | the filter drops a task whose id no task around it has, and keeps the rest |
| TasksApi.NextIdAfterDeletingLast | modules_2/http.js:123-147 | after the highest-id task is deleted, the next id is one more than the new maximum (1 for an empty list), so it is at most the deleted id |
| TasksApi.RemoveLast | modules_2/http.js:147 | deleting the last id of a well-formed list drops just the last task |
| TasksApi.NextIdOfPrefix | modules_2/http.js:123 | the next id once the last task is gone |
| TasksApi.IdReusedAfterDelete | modules_2/http.js:64-147 | from the initial state, deleting task 2 makes the next created task get id 2 again |
| TasksApi.TaskServer.constructor | modules_2/http.js:64-67 | the server starts with the two initial tasks, well formed |
| TasksApi.TaskServer.Create | modules_2/http.js:106-134 | a rejected body gives 400 with its message and leaves the list unchanged; an accepted one gives 201 with the new task, and the list becomes the old list plus that task at the end; ids stay distinct and ascending |
| TasksApi.TaskServer.Delete | modules_2/http.js:137-156 | NaN gives 400 with the list unchanged; otherwise the list becomes the filtered list: 404 and unchanged when no task had the id, else 200 and exactly one task shorter |
| TasksApi.TaskServer.Handle | modules_2/http.js:69-161 | per route: preflight 200 with an empty body, the description, the list, create, delete or 404; only create and delete change the list; the list stays well formed |
| CommentsRouter.Lookup | http/index.js:14-26 | a table lookup finds nothing exactly when no entry matches both method and url |
| CommentsRouter.Dispatch | http/index.js:14-26 | a handler other than notFound is chosen exactly when some route matches method and url exactly, and it is that route's handler |
| CommentsRouter.RoutesUnambiguous | http/index.js:14-22 | no two routes share method and url, so exactly one handler is selected |
| CommentsRouter.DispatchIsLookup | http/index.js:14-26 | the if/else chain selects what the route table selects |
| CommentsRouter.NearMissesNotFound | http/index.js:24-26 | POST `/`, GET `/comments/`, a query string, a trailing slash and another method reach notFound; so does the method `get` in lower case, a fact about the chain alone, since Node's HTTP parser refuses such a request before the handler runs |
| CommentHandlers.FormatOf | http/handlers.js:42-62 | form and JSON bodies are recognised exactly when the header equals the media type |
| CommentHandlers.ExactContentType | http/handlers.js:42-77 | a charset parameter, other casing, another type or a missing header is unsupported |
| CommentHandlers.GetHtml | http/handlers.js:19-23 | status 200 with text/html |
| CommentHandlers.GetText | http/handlers.js:25-29 | status 200 with text/plain |
| CommentHandlers.NotFound | http/handlers.js:83-87 | the status stays at the default 200 and is never 404; the page is text/html |
| CommentHandlers.CommentBoard.constructor | http/handlers.js:1 | the board starts with the loaded comments |
| CommentHandlers.CommentBoard.GetComments | http/handlers.js:32-36 | status 200, JSON, the current comments; nothing changes |
| CommentHandlers.CommentBoard.PostComments | http/handlers.js:39-81 | the comments array only grows, and by at most one. A parsed form appends it with 200 text/html. Parsed JSON appends it with 200. A parse failure gives 400 and changes nothing. Any other type changes nothing, answers with the default status 200, and leaves 400 on the request |
| ChunkTransforms.UpperCase | stream/stdin-stdout.mjs:16 | upperCaseStream's `toUpperCase`, on ASCII input: the length is kept; UpperCaseAt and UpperCaseShape give the characters |
| ChunkTransforms.UpperCaseAt | stream/stdin-stdout.mjs:16 | upper-casing keeps the length and maps every position on its own |
| ChunkTransforms.LowerCaseAt | stream/stdin-stdout.mjs:16 | the same for lower-casing |
| ChunkTransforms.UpperCaseShape | stream/stdin-stdout.mjs:14-19 | on ASCII input, upper-casing keeps the length, leaves non-letters unchanged, leaves no lower-case letter, and keeps ASCII text ASCII |
| ChunkTransforms.UpperCaseIdempotent | stream/stdin-stdout.mjs:16 | on ASCII input, upper-casing twice is upper-casing once |
| ChunkTransforms.UpperCaseAppend | stream/stdin-stdout.mjs:16 | upper-casing distributes over concatenation |
| ChunkTransforms.LowerUpperChar | stream/stdin-stdout.mjs:16 | for one character, lower-casing undoes upper-casing exactly when it was not upper case |
| ChunkTransforms.LowerUndoesUpper | stream/stdin-stdout.mjs:16 | on ASCII input, lower-casing the upper-cased text gives it back exactly when it had no upper-case letter |
| ChunkTransforms.Reverse | stream/stdin-stdout.mjs:28 | `reverse()` keeps the length; ReverseAt gives the characters |
| ChunkTransforms.ReverseAt | stream/stdin-stdout.mjs:28 | reversing keeps the length and reads the text from the other end |
| ChunkTransforms.ReverseReverse | stream/stdin-stdout.mjs:28 | reversing twice gives the text back |
| ChunkTransforms.ReverseKeepLast | stream/stdin-stdout.mjs:26-28 | reverseStream keeps the length and the last character last; ReverseKeepLastAt and ReverseKeepLastInvolution give the rest |
| ChunkTransforms.ReverseKeepLastAt | stream/stdin-stdout.mjs:26-28 | reverseStream keeps the length and the last character last, and puts the characters before it in reverse order |
| ChunkTransforms.ReverseKeepLastInvolution | stream/stdin-stdout.mjs:26-28 | reverseStream applied twice gives the chunk back |
| ChunkTransforms.UpperCommutesWithReverse | stream/stdin-stdout.mjs:14-30 | on ASCII input, upper-casing and reverseStream commute |
| ChunkTransforms.LineIsReversed | stream/stdin-stdout.mjs:22-28 | a chunk ending in a newline is fully reversed, with the newline still last |
| ChunkTransforms.ExampleAbcde | stream/stdin-stdout.mjs:26-28 | "abcde" becomes "dcbae" |
| ChunkTransforms.ExampleTypedLine | stream/stdin-stdout.mjs:22-28 | "saamaalet\n" becomes "telaamaas\n", as the comment says |
| ChunkTransforms.TransformLine | stream/stdin-stdout.mjs:34 | through the pipeline, a line ending in a newline comes out upper-cased and reversed, with the newline last |
| ChunkTransforms.UpperSaamaalet | stream/stdin-stdout.mjs:16 | "saamaalet" upper-cases to "SAAMAALET" |
| ChunkTransforms.ReverseSaamaalet | stream/stdin-stdout.mjs:28 | "SAAMAALET" reverses to "TELAAMAAS" |
| ChunkTransforms.ExamplePipelineLine | stream/stdin-stdout.mjs:22-34 | the pipeline turns "saamaalet\n" into "TELAAMAAS\n" |
| ChunkTransforms.ExampleEmpty | stream/stdin-stdout.mjs:26-28 | the empty chunk stays empty: `pop` gives undefined, and `join('')` renders it as nothing |
| ChunkTransforms.Transform | stream/stdin-stdout.mjs:34 | one chunk through both stages, upper-casing first: the length is kept; TransformLine and UpperCommutesWithReverse give its shape |
| ChunkTransforms.Output | stream/stdin-stdout.mjs:34 | definition: each chunk's transform, in order; OutputAppend and OutputLength carry its contract |
| ChunkTransforms.OutputAppend | stream/stdin-stdout.mjs:34 | chunks are transformed independently and in order: the output of a concatenated stream is the concatenated output |
| ChunkTransforms.OutputLength | stream/stdin-stdout.mjs:34 | on ASCII input, stdout receives as many characters as stdin delivered |
| ChunkTransforms.ChunkingChangesOutput | stream/stdin-stdout.mjs:26-34 | the same text gives different output as one chunk ("abc" to "BAC") and as two ("ab", "c" to "ABC") |
| Fibonacci.FibLin | fibonacci.js:39-51 | gives 0 and 1 at once, and F(n) in general, checked against the recursive definition; for n ≥ 2 the loop runs n - 1 times; for a negative n the result is undefined (`None`) |
| Fibonacci.FibTen | fibonacci.js:1 | F(10) = 55, as in the listing of the sequence |
| Fibonacci.FibForty | fibonacci.js:53 | F(40) = 102334155, the value the script prints |

## Left out

- The event-loop demonstration in `index.js`, and the timers and log lines of `fibonacci.js`: they are runtime scheduling, not logic of the repository.
- The promise-based `fib` with its `cashe` map (`fibonacci.js:19-35`), which is `setImmediate` scheduling. Its cache-hit path at line 25 does not return, so it would recompute anyway.
- Fibonacci.FibLin: JavaScript numbers are exact only up to 2^53, so the model's unbounded result equals the script's only up to about n = 78. Non-integer arguments are not modelled.
- getHome (`http/handlers.js:5-17`) reads a file from disk. Its route in the dispatcher is modelled, its body is not.
- The data module that supplies the initial comments is not part of this model. Its contents are the constructor parameter of `CommentBoard`.
- `JSON.parse` and `querystring.parse` are parameters of the methods that call them. `None` stands for a thrown exception. `querystring.parse` never throws in Node, but the form branch still has a catch, so the model allows it to fail.
- `JSON.stringify` is left out: replies are datatypes, not serialised text. JSON numbers are integers in the model, and the order of object keys is not modelled.
- ChunkTransforms.UpperCase: it maps only the ASCII letters. Full Unicode `toUpperCase` can change the length of a string, as "ß" becomes "SS", and that is not modelled.
- The decoding of chunk buffers into strings is left out, as is the splitting of UTF-16 surrogate pairs by `split('')`. Strings are sequences of characters.
- Node stream internals are left out: re-chunking, backpressure and `pipe` error handling. The pipeline is modelled on the chunks as the transforms receive them.
- Headers other than Content-Type, CORS headers, sockets and `listen` are not modelled.
- TasksApi.Response: it has no content type. The tasks server sets `Content-Type: application/json` on every reply, the preflight included (`modules_2/http.js:76`); that constant header is not modelled.
- JsRuntime.ParseInt: it is exact on every digit string, while JavaScript's `parseInt` returns a double, so an id above 2^53 in a url rounds. Server-assigned ids start at 1 and grow by one, so this is not visible in practice.
- Logging is left out: `console.log(comment)` in postComments (`http/handlers.js:51`) and the log lines of the other scripts.
- A request's `data` and `end` events are treated as one atomic step. Interleaving with other requests is not modelled.
- Express applications, middleware, the React client, the event-emitter and module-loading demos, and the file-copying scripts are not part of this model.
- TasksApi.TaskServer.Handle: the reply to GET `/` is a constant (`ServerInfo`) and not the text of the description. The DELETE success message is its id (`TaskDeleted`).
