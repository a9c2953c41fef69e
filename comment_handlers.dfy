/**
  The handlers of the comments server and the shared `comments` array they read and
  append to. Two of them leave the response status at its default of 200 where a
  status was evidently meant: the unsupported-content-type branch of postComments
  assigns `req.statusCode` instead of `res.statusCode`, and notFound compares
  `res.statusCode === 404` instead of assigning it. The model reproduces both.
 */
module CommentHandlers {
  import opened JsRuntime

  /** A comment is whatever the body parser produced. */
  type Comment = Value

  datatype Body = Text(text: string) | CommentsJson(comments: seq<Comment>)

  /**
    What the client receives: res.statusCode (200 unless a handler assigns another
    value), the Content-Type header the handler set last, and the body.
   */
  datatype Response = Response(status: int, contentType: string, body: Body)

  /** The status of a Node.js ServerResponse that no one has assigned. */
  const DefaultStatus := 200

  const FormType := "application/x-www-form-urlencoded"
  const JsonType := "application/json"

  const FormReceived := "<h1>Comment form was recived</h1><a href=\"/\">add one more comment</a>"
  const JsonReceived := "Comment was recived"
  const InvalidFormData := "Invalid form data"
  const InvalidJsonData := "Invalid JSON"
  const UnsupportedBody := "data must be in JSON format or in form data"

  datatype Format = Form | Json | Unsupported

  /** How postComments reads a body, from the Content-Type header (absent is `None`). */
  function FormatOf(contentType: Option<string>): (f: Format)
    ensures f == Form <==> contentType == Some(FormType)
    ensures f == Json <==> contentType == Some(JsonType)
  {
    if contentType == Some(FormType) then Form
    else if contentType == Some(JsonType) then Json
    else Unsupported
  }

  /** The header must match exactly: parameters, other casing or a missing header are unsupported. */
  lemma ExactContentType()
    ensures FormatOf(Some("application/json; charset=utf-8")) == Unsupported
    ensures FormatOf(Some("Application/JSON")) == Unsupported
    ensures FormatOf(Some("application/x-www-form-urlencoded; charset=UTF-8")) == Unsupported
    ensures FormatOf(Some("text/plain")) == Unsupported
    ensures FormatOf(None) == Unsupported
  {
  }

  /** getHTML: a fixed page with status 200. */
  function GetHtml(): (r: Response)
    ensures r.status == 200 && r.contentType == "text/html"
  {
    Response(200, "text/html", Text("<h1>Server is run</h1>"))
  }

  /** getText: a fixed text with status 200. */
  function GetText(): (r: Response)
    ensures r.status == 200 && r.contentType == "text/plain"
  {
    Response(200, "text/plain", Text("Server is run"))
  }

  /** notFound: the page says "not found" but the status is never set to 404. */
  function NotFound(): (r: Response)
    ensures r.status == DefaultStatus && r.status != 404
    ensures r.contentType == "text/html"
  {
    // `res.statusCode === 404` only compares, so the status keeps its default
    Response(DefaultStatus, "text/html", Text("<h1>Page not found</h1>"))
  }

  /** The module-level `comments` array shared by getComments and postComments. */
  class CommentBoard {
    var comments: seq<Comment>

    /** `require("./data")`: the comments the server starts with. */
    constructor (initial: seq<Comment>)
      ensures comments == initial
    {
      comments := initial;
    }

    /** getComments: the current comments as JSON, with status 200; nothing changes. */
    method GetComments() returns (resp: Response)
      ensures resp.status == 200 && resp.contentType == JsonType
      ensures resp.body == CommentsJson(comments)
    {
      resp := Response(200, JsonType, CommentsJson(comments));
    }

    /**
      postComments, given the Content-Type header, the chunks of the body and the two
      parsers (querystring.parse and JSON.parse, `None` when they throw). A parsed
      comment is appended and answered with 200; a parse failure is a 400 and changes
      nothing. Any other Content-Type changes nothing and is answered with status 200:
      the 400 is written to `req.statusCode`, returned here as `reqStatusCode`.
     */
    method PostComments(contentType: Option<string>, chunks: seq<string>,
                        parseForm: string -> Option<Comment>, parseJson: string -> Option<Comment>)
      returns (resp: Response, reqStatusCode: Option<int>)
      modifies this
      ensures old(comments) <= comments && |comments| <= |old(comments)| + 1
      ensures match FormatOf(contentType)
        case Form =>
          && reqStatusCode == None
          && (match parseForm(Concat(chunks))
              case Some(c) => comments == old(comments) + [c] && resp == Response(200, "text/html", Text(FormReceived))
              case None => comments == old(comments) && resp == Response(400, "text/plain", Text(InvalidFormData)))
        case Json =>
          && reqStatusCode == None
          && (match parseJson(Concat(chunks))
              case Some(c) => comments == old(comments) + [c] && resp == Response(200, "text/plain", Text(JsonReceived))
              case None => comments == old(comments) && resp == Response(400, "text/plain", Text(InvalidJsonData)))
        case Unsupported =>
          && comments == old(comments)
          && resp == Response(DefaultStatus, "text/plain", Text(UnsupportedBody))
          && reqStatusCode == Some(400)
    {
      if contentType == Some(FormType) {
        var body := CollectBody(chunks);
        var comment := parseForm(body);
        if comment.Some? {
          comments := comments + [comment.value];
          resp := Response(200, "text/html", Text(FormReceived));
        } else {
          resp := Response(400, "text/plain", Text(InvalidFormData));
        }
        reqStatusCode := None;
      } else if contentType == Some(JsonType) {
        var body := CollectBody(chunks);
        var comment := parseJson(body);
        if comment.Some? {
          comments := comments + [comment.value];
          resp := Response(200, "text/plain", Text(JsonReceived));
        } else {
          resp := Response(400, "text/plain", Text(InvalidJsonData));
        }
        reqStatusCode := None;
      } else {
        // `req.statusCode = 400` sets a property of the request; the response keeps its default status
        reqStatusCode := Some(400);
        resp := Response(DefaultStatus, "text/plain", Text(UnsupportedBody));
      }
    }
  }
}
