/** The Express error middleware of the backend: it turns whatever a route threw into an HTTP
    status and a JSON body `{ error, stack? }`. Mongoose validation and cast errors, the two
    token errors and the duplicate-key error get fixed statuses and messages; an HTTP error
    keeps its own; anything else becomes a 500 whose message hides the original. */
module ErrorHandler {
  import opened Wrappers
  import opened Seqs
  import opened Text

  /** What a route throws, as far as the handler reads it. A status of 0 stands for an absent
      (falsy) `statusCode` / `status`; `validationMessages` are the messages of `err.errors`
      in order; `keyPattern` the keys of `err.keyPattern` in order, `None` when it is absent. */
  datatype Thrown = Thrown(
    name: string,
    message: string,
    isHttpError: bool,
    statusCode: nat,
    status: nat,
    code: Option<int>,
    validationMessages: seq<string>,
    path: string,
    keyPattern: Option<seq<string>>,
    stack: string)

  /** The response: its status and body; the body has `stack` only in development. */
  datatype Response = Response(status: nat, error: string, stack: Option<string>)

  /** MongoDB's duplicate-key error code. */
  const DuplicateKey := 11000

  /** What `Object.keys(undefined)` throws inside the handler itself. */
  const NoKeyPattern := "TypeError: Cannot convert undefined or null to object"

  /** `createError(status, message)`: an HTTP error carrying a stack captured where it is
      created (`stack`, a parameter, since it depends on the call site). */
  function HttpError(status: nat, message: string, stack: string): (e: Thrown)
    ensures e.isHttpError && e.statusCode == status && e.message == message
  {
    Thrown("HttpError", message, true, status, status, None, [], "", None, stack)
  }

  /** `Object.keys(err.keyPattern)[0]`, as a template literal prints it. */
  function FirstKey(keys: seq<string>): string {
    if keys == [] then "undefined" else keys[0]
  }

  /** `error.statusCode || error.status || 500`. */
  function StatusOf(e: Thrown): (s: nat)
    ensures s != 0
    ensures e.statusCode != 0 ==> s == e.statusCode
  {
    if e.statusCode != 0 then e.statusCode else if e.status != 0 then e.status else 500
  }

  /** The response built from the final error. */
  function Reply(status: nat, message: string, stack: string, development: bool): Response {
    Response(status, message, if development then Some(stack) else None)
  }

  /** The handler's decision, as a list of cases in order of precedence: a duplicate key wins
      over every name, a recognised name over the error's own status, and an error that is not
      an HTTP error is reported as an internal error. `newStack` is the stack of an error the
      handler creates. It fails only when a duplicate-key error has no key pattern. */
  function Respond(err: Thrown, development: bool, newStack: string): (r: Result<Response, string>)
    ensures r.Failure? <==> err.code == Some(DuplicateKey) && err.keyPattern.None?
    ensures r.Success? ==> (r.value.stack.Some? <==> development)
    ensures r.Success? ==> r.value.status != 0
  {
    if err.code == Some(DuplicateKey) then
      match err.keyPattern
      case None => Failure(NoKeyPattern)
      case Some(keys) => Success(Reply(409, FirstKey(keys) + " already exists", newStack, development))
    else if err.name == "TokenExpiredError" then Success(Reply(401, "Token expired", newStack, development))
    else if err.name == "JsonWebTokenError" then Success(Reply(401, "Invalid token", newStack, development))
    else if err.name == "CastError" then Success(Reply(400, err.path + " is invalid", newStack, development))
    else if err.name == "ValidationError" then
      Success(Reply(400, Join(err.validationMessages, ", "), newStack, development))
    else if err.isHttpError then Success(Reply(StatusOf(err), err.message, err.stack, development))
    else Success(Reply(500, "Internal server error", newStack, development))
  }

  /** `errorHandler`: `error` starts as the thrown value and each later check may replace it;
      a value that is still not an HTTP error at the end becomes a 500. */
  method HandleError(err: Thrown, development: bool, newStack: string) returns (r: Result<Response, string>)
    ensures r == Respond(err, development, newStack)
  {
    var error := err;
    if err.name == "ValidationError" {
      error := HttpError(400, Join(err.validationMessages, ", "), newStack);
    }
    if err.name == "CastError" {
      error := HttpError(400, err.path + " is invalid", newStack);
    }
    if err.name == "JsonWebTokenError" {
      error := HttpError(401, "Invalid token", newStack);
    }
    if err.name == "TokenExpiredError" {
      error := HttpError(401, "Token expired", newStack);
    }
    if err.code == Some(DuplicateKey) {
      if err.keyPattern.None? {
        return Failure(NoKeyPattern);
      }
      error := HttpError(409, FirstKey(err.keyPattern.value) + " already exists", newStack);
    }
    if !error.isHttpError {
      error := HttpError(500, "Internal server error", newStack);
    }
    var status := StatusOf(error);
    r := Success(Response(status, error.message, if development then Some(error.stack) else None));
  }

  /** An error the handler does not recognise and that is not an HTTP error never reaches the
      client with its own message or stack. */
  lemma UnexpectedIsHidden(err: Thrown, development: bool, newStack: string)
    requires !err.isHttpError && err.code != Some(DuplicateKey)
    requires err.name !in {"ValidationError", "CastError", "JsonWebTokenError", "TokenExpiredError"}
    ensures Respond(err, development, newStack).Success?
    ensures Respond(err, development, newStack).value.status == 500
    ensures Respond(err, development, newStack).value.error == "Internal server error"
    ensures Respond(err, development, newStack).value.stack.Some? ==>
      Respond(err, development, newStack).value.stack == Some(newStack)
  {
  }

  /** An HTTP error thrown by a route keeps its status and message. */
  lemma HttpErrorPassesThrough(status: nat, message: string, stack: string, development: bool, newStack: string)
    requires status != 0
    ensures Respond(HttpError(status, message, stack), development, newStack) ==
      Success(Response(status, message, if development then Some(stack) else None))
  {
  }

  /** The messages of a validation error come back out of the response, one per piece, when
      none of them contains a comma and there is at least one. */
  lemma ValidationMessagesRecoverable(err: Thrown, development: bool, newStack: string)
    requires err.name == "ValidationError" && err.code != Some(DuplicateKey)
    requires |err.validationMessages| >= 1
    requires forall i :: 0 <= i < |err.validationMessages| ==> ',' !in err.validationMessages[i]
    ensures Respond(err, development, newStack).Success?
    ensures Respond(err, development, newStack).value.status == 400
    ensures Split(Respond(err, development, newStack).value.error, ',') ==
      [err.validationMessages[0]] + Map(err.validationMessages[1..], WithSpace)
  {
    var msgs := err.validationMessages;
    var spaced := [msgs[0]] + Map(msgs[1..], WithSpace);
    JoinSpaced(msgs);
    SplitJoin(spaced, ',');
  }

  function WithSpace(m: string): string { " " + m }

  /** Joining with ", " is joining with "," pieces that, after the first, start with a space. */
  lemma {:induction false} JoinSpaced(msgs: seq<string>)
    requires |msgs| >= 1
    ensures Join(msgs, ", ") == Join([msgs[0]] + Map(msgs[1..], WithSpace), ",")
  {
    if |msgs| > 1 {
      var rest := msgs[1..];
      JoinSpaced(rest);
      var spacedRest := [rest[0]] + Map(rest[1..], WithSpace);
      var tail := Map(rest, WithSpace);
      assert tail == [" " + rest[0]] + Map(rest[1..], WithSpace);
      JoinPrefixFirst(" ", spacedRest, ",");
      assert [msgs[0]] + tail == [msgs[0]] + Map(msgs[1..], WithSpace);
    }
  }

  /** Putting `p` in front of the first piece puts it in front of the joined string. */
  lemma JoinPrefixFirst(p: string, parts: seq<string>, sep: string)
    requires |parts| >= 1
    ensures Join([p + parts[0]] + parts[1..], sep) == p + Join(parts, sep)
  {
    var q := [p + parts[0]] + parts[1..];
    assert q[1..] == parts[1..];
  }
}
