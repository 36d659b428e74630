/** The HTTP handlers of the board routes: the filter query of `GET /boards/:id/full`, and
    how each handler answers a service result. A handler with a `try`/`catch` answers the
    errors itself; one without lets the error reach the error middleware. The board service is
    a parameter here: each handler receives what the service call returned or threw. */
module BoardController {
  import opened Wrappers
  import opened Seqs
  import opened Text
  import opened Documents
  import opened ErrorHandler

  /** The query string of the full-board route; each value is absent or one string. */
  datatype FullBoardQuery = FullBoardQuery(
    title: Option<string>,
    labels: Option<string>,
    members: Option<string>,
    noMembers: Option<string>,
    includeNoLabels: Option<string>)

  /** The filter handed to the board service. */
  datatype FilterBy = FilterBy(
    title: Option<string>,
    labels: Option<seq<string>>,
    members: Option<seq<string>>,
    noMembers: bool,
    includeNoLabels: bool)

  /** What a handler sends: a JSON body with a status, an error body, a 204 without body, or
      whatever the error middleware makes of an error the handler let through. */
  datatype Reply<T> =
    | Json(status: nat, value: T)
    | ErrorJson(status: nat, error: string)
    | NoContent
    | Handled(response: Result<Response, string>)

  function NonEmpty(s: string): bool { s != "" }

  /** `raw ? raw.split(",").map(id => id.trim()).filter(id => id) : undefined`; the empty
      string is falsy. */
  function IdList(raw: Option<string>): (r: Option<seq<string>>)
    ensures r.None? <==> raw.None? || raw.value == ""
  {
    if raw.None? || raw.value == "" then None
    else Some(Filter(Map(Split(raw.value, ','), Trim), NonEmpty))
  }

  /** Every id of a parsed list is non-empty, trimmed and free of commas. */
  lemma IdListClean(raw: Option<string>)
    ensures IdList(raw).Some? ==> forall i :: 0 <= i < |IdList(raw).value| ==>
      var id := IdList(raw).value[i];
      id != "" && ',' !in id && Trim(id) == id
  {
    if IdList(raw).Some? {
      var parts := Split(raw.value, ',');
      var trimmed := Map(parts, Trim);
      FilterMembers(trimmed, NonEmpty);
      forall i | 0 <= i < |IdList(raw).value|
        ensures var id := IdList(raw).value[i]; id != "" && ',' !in id && Trim(id) == id
      {
        var id := IdList(raw).value[i];
        assert id in trimmed;
        var k :| 0 <= k < |trimmed| && trimmed[k] == id;
        TrimIsSlice(parts[k]);
        TrimIdempotent(parts[k]);
      }
    }
  }

  /** A list of clean ids joined with commas parses back into the same ids. */
  lemma IdListRoundTrip(ids: seq<string>)
    requires |ids| >= 1
    requires forall i :: 0 <= i < |ids| ==> ids[i] != "" && ',' !in ids[i] && Trim(ids[i]) == ids[i]
    ensures IdList(Some(Join(ids, ","))) == Some(ids)
  {
    var joined := Join(ids, ",");
    JoinStartsWithFirst(ids, ",");
    assert joined != "";
    SplitJoin(ids, ',');
    assert Map(ids, Trim) == ids;
    FilterKeepsAll(ids, NonEmpty);
  }

  lemma JoinStartsWithFirst(parts: seq<string>, sep: string)
    requires |parts| >= 1
    ensures |Join(parts, sep)| >= |parts[0]| && Join(parts, sep)[..|parts[0]|] == parts[0]
  {
  }

  /** `raw === "true" || raw === "1"`. */
  function Flag(raw: Option<string>): bool {
    raw == Some("true") || raw == Some("1")
  }

  /** The `filterBy` of `getFullBoardById`. */
  function ParseFilter(q: FullBoardQuery): (f: FilterBy)
    ensures f.title == q.title
    ensures f.labels == IdList(q.labels) && f.members == IdList(q.members)
    ensures f.noMembers <==> q.noMembers == Some("true") || q.noMembers == Some("1")
    ensures f.includeNoLabels <==> q.includeNoLabels == Some("true") || q.includeNoLabels == Some("1")
  {
    FilterBy(q.title, IdList(q.labels), IdList(q.members), Flag(q.noMembers), Flag(q.includeNoLabels))
  }

  /** What an error thrown with `createError(404, message)` becomes. */
  function NotFound<T>(message: string, development: bool, stack: string): Reply<T> {
    Handled(Respond(HttpError(404, message, stack), development, stack))
  }

  /** A thrown 404 reaches the client as a 404 with its message. */
  lemma NotFoundIs404<T>(message: string, development: bool, stack: string)
    ensures var r: Reply<T> := NotFound(message, development, stack);
      r.Handled? && r.response.Success? &&
      r.response.value.status == 404 && r.response.value.error == message
  {
    HttpErrorPassesThrough(404, message, stack, development, stack);
  }

  /** `getFullBoardById`: the service gets the parsed filter; a missing board is a thrown 404. */
  function GetFullBoardById<T>(q: FullBoardQuery, fetch: FilterBy -> Option<T>, development: bool, stack: string)
    : (r: Reply<T>)
    ensures fetch(ParseFilter(q)).Some? ==> r == Json(200, fetch(ParseFilter(q)).value)
    ensures fetch(ParseFilter(q)).None? ==>
      r.Handled? && r.response == Success(Response(404, "Board not found", if development then Some(stack) else None))
  {
    match fetch(ParseFilter(q))
    case None =>
      HttpErrorPassesThrough(404, "Board not found", stack, development, stack);
      NotFound("Board not found", development, stack)
    case Some(full) => Json(200, full)
  }

  /** The status the client receives, `None` when the error middleware itself throws. */
  function StatusSent<T>(r: Reply<T>): Option<nat> {
    match r
    case Json(status, _) => Some(status)
    case ErrorJson(status, _) => Some(status)
    case NoContent => Some(204)
    case Handled(response) => if response.Success? then Some(response.value.status) else None
  }

  /** The `error` message of the body the client receives, if the reply is an error. */
  function ErrorSent<T>(r: Reply<T>): Option<string> {
    match r
    case ErrorJson(_, error) => Some(error)
    case Handled(response) => if response.Success? then Some(response.value.error) else None
    case _ => None
  }

  /** The `catch` of `createBoard` and `updateBoard`: only a Mongoose validation error shows
      its own message, as a 400; anything else is hidden behind a 500 with the handler's
      message. */
  function Caught<T>(err: Thrown, otherwise: string): (r: Reply<T>)
    ensures r.ErrorJson?
    ensures StatusSent(r) == Some(400) <==> err.name == "ValidationError"
    ensures StatusSent(r) == Some(500) <==> err.name != "ValidationError"
    ensures ErrorSent(r) == Some(if StatusSent(r) == Some(400) then err.message else otherwise)
  {
    if err.name == "ValidationError" then ErrorJson(400, err.message) else ErrorJson(500, otherwise)
  }

  /** `createBoard`: 201 with the created board exactly on success; a failure is a 400 for a
      validation error and a 500 "Failed to create board" otherwise, never another status. */
  function CreateBoard(outcome: Result<Board, Thrown>): (r: Reply<Board>)
    ensures StatusSent(r) == Some(201) <==> outcome.Success?
    ensures outcome.Success? ==> r.Json? && r.value == outcome.value
    ensures outcome.Failure? ==>
      && (StatusSent(r) == Some(400) <==> outcome.error.name == "ValidationError")
      && (StatusSent(r) == Some(500) <==> outcome.error.name != "ValidationError")
      && (StatusSent(r) == Some(500) ==> ErrorSent(r) == Some("Failed to create board"))
  {
    match outcome
    case Success(board) => Json(201, board)
    case Failure(err) => Caught(err, "Failed to create board")
  }

  /** `getAllBoards`: 200 with the boards exactly on success; any error is a 500 that does not
      show the error's message. */
  function GetAllBoards(outcome: Result<seq<Board>, Thrown>): (r: Reply<seq<Board>>)
    ensures StatusSent(r) == Some(200) <==> outcome.Success?
    ensures outcome.Success? ==> r.Json? && r.value == outcome.value
    ensures outcome.Failure? ==>
      StatusSent(r) == Some(500) && ErrorSent(r) == Some("Failed to fetch boards")
  {
    match outcome
    case Success(boards) => Json(200, boards)
    case Failure(_) => ErrorJson(500, "Failed to fetch boards")
  }

  /** `getBoardById`: 200 exactly for a found board, 404 exactly when the lookup finds none,
      500 exactly when it throws. */
  function GetBoardById(outcome: Result<Option<Board>, Thrown>): (r: Reply<Board>)
    ensures StatusSent(r) == Some(200) <==> outcome.Success? && outcome.value.Some?
    ensures outcome.Success? && outcome.value.Some? ==> r.Json? && r.value == outcome.value.value
    ensures StatusSent(r) == Some(404) <==> outcome == Success(None)
    ensures StatusSent(r) == Some(404) ==> ErrorSent(r) == Some("Board not found")
    ensures StatusSent(r) == Some(500) <==> outcome.Failure?
    ensures StatusSent(r) == Some(500) ==> ErrorSent(r) == Some("Failed to fetch board")
  {
    match outcome
    case Failure(_) => ErrorJson(500, "Failed to fetch board")
    case Success(None) => ErrorJson(404, "Board not found")
    case Success(Some(board)) => Json(200, board)
  }

  /** `updateBoard`: 200 exactly for an updated board, 404 exactly when there is none, and a
      failure goes through the same catch as `createBoard`. */
  function UpdateBoard(outcome: Result<Option<Board>, Thrown>): (r: Reply<Board>)
    ensures StatusSent(r) == Some(200) <==> outcome.Success? && outcome.value.Some?
    ensures outcome.Success? && outcome.value.Some? ==> r.Json? && r.value == outcome.value.value
    ensures StatusSent(r) == Some(404) <==> outcome == Success(None)
    ensures outcome.Failure? ==>
      && (StatusSent(r) == Some(400) <==> outcome.error.name == "ValidationError")
      && (StatusSent(r) == Some(500) <==> outcome.error.name != "ValidationError")
      && (StatusSent(r) == Some(500) ==> ErrorSent(r) == Some("Failed to update board"))
  {
    match outcome
    case Failure(err) => Caught(err, "Failed to update board")
    case Success(None) => ErrorJson(404, "Board not found")
    case Success(Some(board)) => Json(200, board)
  }

  /** `deleteBoard` (with "Board not found") and `deleteBoardLabel` (with "Label not found"):
      204 when the service returned the document, otherwise a thrown 404 that reaches the
      client with that message. */
  function DeletedOr404<T>(deleted: Option<T>, message: string, development: bool, stack: string)
    : (r: Reply<()>)
    ensures deleted.Some? <==> r == NoContent
    ensures deleted.None? ==>
      StatusSent(r) == Some(404) && ErrorSent(r) == Some(message)
  {
    if deleted.Some? then NoContent
    else
      NotFoundIs404<()>(message, development, stack);
      NotFound(message, development, stack)
  }

  /** An error from the service that the error middleware does not recognise: a plain
      `Error` or a `TypeError`, neither an HTTP error nor a duplicate key. */
  predicate Unrecognised(err: Thrown) {
    && !err.isHttpError
    && err.code.None?
    && err.name in {"Error", "TypeError"}
  }

  /** What an unrecognised error becomes: a 500 "Internal server error". */
  lemma UnrecognisedIs500<T>(err: Thrown, development: bool, stack: string)
    requires Unrecognised(err)
    ensures var r: Reply<T> := Handled(Respond(err, development, stack));
      StatusSent(r) == Some(500) && ErrorSent(r) == Some("Internal server error")
  {
    UnexpectedIsHidden(err, development, stack);
  }

  /** `addBoardLabel`: 201 with the label; for an unknown board the service reads `labels` of
      `null`, and the TypeError (`typeError`) reaches the error middleware, which answers
      500 "Internal server error". */
  function AddBoardLabel(added: Option<Label>, typeError: Thrown, development: bool, stack: string)
    : (r: Reply<Label>)
    requires Unrecognised(typeError) && typeError.name == "TypeError"
    ensures StatusSent(r) == Some(201) <==> added.Some?
    ensures added.Some? ==> r.Json? && r.value == added.value
    ensures added.None? ==>
      StatusSent(r) == Some(500) && ErrorSent(r) == Some("Internal server error")
  {
    if added.Some? then Json(201, added.value)
    else
      UnrecognisedIs500<Label>(typeError, development, stack);
      Handled(Respond(typeError, development, stack))
  }

  /** `updateBoardLabel`: 200 with the label. When the board or the label is missing the
      service's `findOneAndUpdate` yields `null` and `board.labels` throws a TypeError
      (`typeError`) before the controller's `if (!updatedLabel)` test, so the client gets a
      500 "Internal server error" and never the 404 "Label not found". */
  function UpdateBoardLabel(updated: Option<Label>, typeError: Thrown, development: bool, stack: string)
    : (r: Reply<Label>)
    requires Unrecognised(typeError) && typeError.name == "TypeError"
    ensures StatusSent(r) == Some(200) <==> updated.Some?
    ensures updated.Some? ==> r.Json? && r.value == updated.value
    ensures updated.None? ==>
      StatusSent(r) == Some(500) && ErrorSent(r) == Some("Internal server error")
    ensures StatusSent(r) != Some(404)
  {
    if updated.Some? then Json(200, updated.value)
    else
      UnrecognisedIs500<Label>(typeError, development, stack);
      Handled(Respond(typeError, development, stack))
  }

  /** `getBoardLabels`: 200 with the board's labels. For a missing board the service throws
      `new Error("Board not found")` (`notFound`) before the controller reads `board.labels`;
      the error middleware does not recognise it and answers 500 "Internal server error". */
  function GetBoardLabels(board: Option<Board>, notFound: Thrown, development: bool, stack: string)
    : (r: Reply<seq<Label>>)
    requires Unrecognised(notFound) && notFound.name == "Error" && notFound.message == "Board not found"
    ensures StatusSent(r) == Some(200) <==> board.Some?
    ensures board.Some? ==> r.Json? && r.value == board.value.labels
    ensures board.None? ==>
      StatusSent(r) == Some(500) && ErrorSent(r) == Some("Internal server error")
  {
    if board.Some? then Json(200, board.value.labels)
    else
      UnrecognisedIs500<seq<Label>>(notFound, development, stack);
      Handled(Respond(notFound, development, stack))
  }
}
