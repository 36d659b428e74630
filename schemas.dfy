/** The request schemas of the backend, as predicates on the JSON value a request carries.
    A strict object accepts only its own keys; a required key must be present; an optional
    key may be absent. String bounds count UTF-16 code units and are checked on the string as
    sent; the trimmed, lower-cased value a schema hands on is not modelled. The format checks
    (e-mail, URL, ISO date-time, ObjectId) and `Number(...)` coercion are parameters. */
module Schemas {
  import opened Wrappers
  import opened Text

  datatype Json =
    | JNull
    | JBool(b: bool)
    | JNum(n: real)
    | JStr(s: string)
    | JArr(items: seq<Json>)
    | JObj(fields: map<string, Json>)

  /** The checks the schemas delegate: `z.email()`, `z.url()`, `z.iso.datetime()`,
      `ObjectId.isValid`, and `Number(value)` of `z.coerce.number()` (`None` for NaN). */
  datatype Formats = Formats(
    isEmail: string -> bool,
    isUrl: string -> bool,
    isDatetime: string -> bool,
    isObjectId: string -> bool,
    toNumber: Json -> Option<real>)

  // ----- building blocks -----

  /** `z.string().min(min).max(max)`. */
  predicate Bounded(j: Json, min: nat, max: nat) {
    j.JStr? && min <= Utf16Length(j.s) <= max
  }

  /** `z.string().max(max)`. */
  predicate TextUpTo(j: Json, max: nat) {
    j.JStr? && Utf16Length(j.s) <= max
  }

  /** `Number.MAX_SAFE_INTEGER`: zod's `.int()` accepts only safe integers. */
  const MaxSafeInteger := 9007199254740991

  /** `.int()`: an integer no larger in magnitude than `Number.MAX_SAFE_INTEGER`. */
  predicate IsInteger(n: real) {
    n.Floor as real == n && -MaxSafeInteger <= n.Floor <= MaxSafeInteger
  }

  /** `z.number().int().min(0)`. */
  predicate Index(j: Json) {
    j.JNum? && IsInteger(j.n) && j.n >= 0.0
  }

  predicate ObjectId(f: Formats, j: Json) {
    j.JStr? && f.isObjectId(j.s)
  }

  /** `z.iso.datetime()`. */
  predicate Datetime(f: Formats, j: Json) {
    j.JStr? && f.isDatetime(j.s)
  }

  predicate IsHexDigit(c: char) {
    ('0' <= c <= '9') || ('a' <= c <= 'f') || ('A' <= c <= 'F')
  }

  /** `/^#[0-9A-Fa-f]{6}$/`. */
  predicate HexColor(j: Json) {
    j.JStr? && |j.s| == 7 && j.s[0] == '#' && forall i :: 1 <= i < 7 ==> IsHexDigit(j.s[i])
  }

  /** The object has no key outside `allowed` (`z.strictObject`). */
  predicate OnlyKeys(j: Json, allowed: set<string>) {
    j.JObj? && j.fields.Keys <= allowed
  }

  predicate Has(j: Json, key: string) {
    j.JObj? && key in j.fields
  }

  // ----- common.js -----

  /** `userObjectSchema`: the `{ userId, username, fullname }` snapshot. */
  predicate UserObject(f: Formats, j: Json) {
    && OnlyKeys(j, {"userId", "username", "fullname"})
    && Has(j, "userId") && ObjectId(f, j.fields["userId"])
    && Has(j, "username") && Bounded(j.fields["username"], 3, 30)
    && Has(j, "fullname") && Bounded(j.fields["fullname"], 1, 100)
  }

  /** `appearanceSchema`: an optional background that may be `null`. */
  predicate Appearance(j: Json) {
    && OnlyKeys(j, {"background"})
    && (Has(j, "background") ==> j.fields["background"].JStr? || j.fields["background"].JNull?)
  }

  /** `idParamSchema`: other keys are stripped, not refused. */
  predicate IdParam(f: Formats, j: Json) {
    Has(j, "id") && ObjectId(f, j.fields["id"])
  }

  datatype Page = Page(page: int, limit: int)

  /** One field of `paginationQuerySchema`: the default when absent, otherwise the coerced
      number if it is an integer within the bounds. */
  function CoercedInt(f: Formats, j: Json, key: string, default: int, min: int, max: Option<int>): Option<int> {
    if !Has(j, key) then Some(default)
    else match f.toNumber(j.fields[key])
      case None => None
      case Some(n) =>
        if IsInteger(n) && n.Floor >= min && (max.None? || n.Floor <= max.value) then Some(n.Floor) else None
  }

  /** `paginationQuerySchema`: page a positive integer (default 1), limit an integer from 1
      to 100 (default 20); `None` when the query is refused. */
  function Pagination(f: Formats, j: Json): (r: Option<Page>)
    requires j.JObj?
    ensures r.Some? ==> 1 <= r.value.page && 1 <= r.value.limit <= 100
    ensures !Has(j, "page") && !Has(j, "limit") ==> r == Some(Page(1, 20))
  {
    var page := CoercedInt(f, j, "page", 1, 1, None);
    var limit := CoercedInt(f, j, "limit", 20, 1, Some(100));
    if page.Some? && limit.Some? then Some(Page(page.value, limit.value)) else None
  }

  // ----- auth.js -----

  predicate HasLower(s: string) { exists i :: 0 <= i < |s| && 'a' <= s[i] <= 'z' }
  predicate HasUpper(s: string) { exists i :: 0 <= i < |s| && 'A' <= s[i] <= 'Z' }
  predicate HasDigit(s: string) { exists i :: 0 <= i < |s| && '0' <= s[i] <= '9' }

  predicate IsAlnum(c: char) { ('a' <= c <= 'z') || ('A' <= c <= 'Z') || ('0' <= c <= '9') }

  predicate HasSpecial(s: string) { exists i :: 0 <= i < |s| && !IsAlnum(s[i]) }

  /** `passwordSchema`: 8 to 128 code units with a lower-case letter, an upper-case letter,
      a digit and a character that is none of these. */
  predicate Password(j: Json) {
    Bounded(j, 8, 128) && HasLower(j.s) && HasUpper(j.s) && HasDigit(j.s) && HasSpecial(j.s)
  }

  predicate UsernameChar(c: char) { IsAlnum(c) || c == '_' || c == '-' }

  /** `usernameSchema`: 3 to 30 code units of letters, digits, `_` and `-`. */
  predicate Username(j: Json) {
    Bounded(j, 3, 30) && forall i :: 0 <= i < |j.s| ==> UsernameChar(j.s[i])
  }

  predicate Email(f: Formats, j: Json) { j.JStr? && f.isEmail(j.s) }

  predicate Signup(f: Formats, j: Json) {
    && OnlyKeys(j, {"email", "username", "fullname", "password"})
    && Has(j, "email") && Email(f, j.fields["email"])
    && Has(j, "username") && Username(j.fields["username"])
    && Has(j, "fullname") && Bounded(j.fields["fullname"], 1, 100)
    && Has(j, "password") && Password(j.fields["password"])
  }

  predicate Login(f: Formats, j: Json) {
    && OnlyKeys(j, {"email", "password"})
    && Has(j, "email") && Email(f, j.fields["email"])
    && Has(j, "password") && j.fields["password"].JStr? && Utf16Length(j.fields["password"].s) >= 1
  }

  /** A username is ASCII, so its length in code units is its number of characters. */
  lemma UsernameLength(j: Json)
    requires Username(j)
    ensures 3 <= |j.s| <= 30
  {
    AsciiLength(j.s);
  }

  lemma {:induction false} AsciiLength(s: string)
    requires forall i :: 0 <= i < |s| ==> UsernameChar(s[i])
    ensures Utf16Length(s) == |s|
  {
    if s != [] {
      AsciiLength(s[1..]);
    }
  }

  /** The credentials of an accepted signup, on their own, are an accepted login. */
  lemma SignupCredentialsLogIn(f: Formats, j: Json)
    requires Signup(f, j)
    ensures Login(f, JObj(map["email" := j.fields["email"], "password" := j.fields["password"]]))
  {
  }

  /** Login only asks for some password: one that signup refuses still logs in. */
  lemma WeakPasswordLogsIn(f: Formats, email: string)
    requires f.isEmail(email)
    ensures var body := JObj(map["email" := JStr(email), "password" := JStr("password1")]);
      Login(f, body) && !Password(body.fields["password"])
  {
    var s := "password1";
    assert forall i :: 0 <= i < |s| ==> !('A' <= s[i] <= 'Z');
  }

  // ----- card.js -----

  predicate Cover(f: Formats, j: Json) {
    && OnlyKeys(j, {"img", "color", "textOverlay"})
    && (Has(j, "img") ==> j.fields["img"].JStr? && f.isUrl(j.fields["img"].s))
    && (Has(j, "color") ==> HexColor(j.fields["color"]))
    && (Has(j, "textOverlay") ==> j.fields["textOverlay"].JBool?)
  }

  predicate Attachment(f: Formats, j: Json) {
    && OnlyKeys(j, {"url", "name", "publicId"})
    && Has(j, "url") && j.fields["url"].JStr? && f.isUrl(j.fields["url"].s)
    && Has(j, "name") && TextUpTo(j.fields["name"], 255)
    && (Has(j, "publicId") ==> TextUpTo(j.fields["publicId"], 255))
  }

  predicate Comment(j: Json) {
    OnlyKeys(j, {"text"}) && Has(j, "text") && Bounded(j.fields["text"], 1, 1000)
  }

  predicate ObjectIds(f: Formats, j: Json) {
    j.JArr? && forall i :: 0 <= i < |j.items| ==> ObjectId(f, j.items[i])
  }

  predicate UserObjects(f: Formats, j: Json) {
    j.JArr? && forall i :: 0 <= i < |j.items| ==> UserObject(f, j.items[i])
  }

  /** The fields `createCardSchema` and `updateCardSchema` share, each optional. */
  predicate CardDetails(f: Formats, j: Json)
    requires j.JObj?
  {
    && (Has(j, "description") ==> TextUpTo(j.fields["description"], 5000))
    && (Has(j, "cover") ==> Cover(f, j.fields["cover"]))
    && (Has(j, "labelIds") ==> ObjectIds(f, j.fields["labelIds"]))
    && (Has(j, "assignees") ==> UserObjects(f, j.fields["assignees"]))
    && (Has(j, "startDate") ==> Datetime(f, j.fields["startDate"]))
    && (Has(j, "dueDate") ==> Datetime(f, j.fields["dueDate"]))
  }

  predicate CreateCard(f: Formats, j: Json) {
    && OnlyKeys(j, {"boardId", "listId", "title", "description", "cover", "labelIds", "assignees",
                    "startDate", "dueDate"})
    && Has(j, "boardId") && ObjectId(f, j.fields["boardId"])
    && Has(j, "listId") && ObjectId(f, j.fields["listId"])
    && Has(j, "title") && Bounded(j.fields["title"], 1, 200)
    && CardDetails(f, j)
  }

  predicate UpdateCard(f: Formats, j: Json) {
    && OnlyKeys(j, {"title", "description", "cover", "labelIds", "assignees", "startDate", "dueDate",
                    "archivedAt"})
    && (Has(j, "title") ==> Bounded(j.fields["title"], 1, 200))
    && CardDetails(f, j)
    && (Has(j, "archivedAt") ==> Datetime(f, j.fields["archivedAt"]))
  }

  predicate MoveCard(f: Formats, j: Json) {
    && OnlyKeys(j, {"listId", "boardId", "targetIndex"})
    && Has(j, "listId") && ObjectId(f, j.fields["listId"])
    && Has(j, "boardId") && ObjectId(f, j.fields["boardId"])
    && Has(j, "targetIndex") && Index(j.fields["targetIndex"])
  }

  /** The editable fields of an accepted new card, without its board and list, are an
      accepted update. */
  lemma CreatedCardUpdatable(f: Formats, j: Json)
    requires CreateCard(f, j)
    ensures UpdateCard(f, JObj(j.fields - {"boardId", "listId"}))
  {
    var u := JObj(j.fields - {"boardId", "listId"});
    assert forall k :: k in u.fields ==> u.fields[k] == j.fields[k];
  }

  /** The index of an accepted move is a natural number. */
  lemma MoveIndexIsNat(f: Formats, j: Json)
    requires MoveCard(f, j) || MoveList(f, j)
    ensures var n := j.fields["targetIndex"].n;
      n.Floor as real == n && 0 <= n.Floor <= MaxSafeInteger
  {
  }

  // ----- board.js -----

  predicate Label(j: Json) {
    && OnlyKeys(j, {"title", "color"})
    && Has(j, "title") && Bounded(j.fields["title"], 1, 50)
    && Has(j, "color") && HexColor(j.fields["color"])
  }

  /** `labelSchema.partial()`. */
  predicate LabelUpdate(j: Json) {
    && OnlyKeys(j, {"title", "color"})
    && (Has(j, "title") ==> Bounded(j.fields["title"], 1, 50))
    && (Has(j, "color") ==> HexColor(j.fields["color"]))
  }

  /** A label update that names both fields is a full label, and every label is an update. */
  lemma LabelUpdateWithBoth(j: Json)
    ensures Label(j) ==> LabelUpdate(j)
    ensures LabelUpdate(j) && Has(j, "title") && Has(j, "color") ==> Label(j)
  {
  }

  predicate CreateBoard(f: Formats, j: Json) {
    && OnlyKeys(j, {"title", "description", "appearance", "workspaceId"})
    && Has(j, "title") && Bounded(j.fields["title"], 1, 100)
    && (Has(j, "description") ==> TextUpTo(j.fields["description"], 500))
    && (Has(j, "appearance") ==> Appearance(j.fields["appearance"]))
    && Has(j, "workspaceId") && ObjectId(f, j.fields["workspaceId"])
  }

  predicate UpdateBoard(j: Json) {
    && OnlyKeys(j, {"title", "description", "appearance"})
    && (Has(j, "title") ==> Bounded(j.fields["title"], 1, 100))
    && (Has(j, "description") ==> TextUpTo(j.fields["description"], 500))
    && (Has(j, "appearance") ==> Appearance(j.fields["appearance"]))
  }

  predicate FlagValue(j: Json) {
    j.JStr? && j.s in {"true", "false", "1", "0"}
  }

  /** `boardFilterQuerySchema`: other keys are stripped, not refused. */
  predicate BoardFilterQuery(j: Json) {
    && j.JObj?
    && (Has(j, "title") ==> j.fields["title"].JStr?)
    && (Has(j, "labels") ==> j.fields["labels"].JStr?)
    && (Has(j, "members") ==> j.fields["members"].JStr?)
    && (Has(j, "noMembers") ==> FlagValue(j.fields["noMembers"]))
    && (Has(j, "includeNoLabels") ==> FlagValue(j.fields["includeNoLabels"]))
  }

  // ----- list.js -----

  predicate CreateList(f: Formats, j: Json) {
    && OnlyKeys(j, {"boardId", "title", "description"})
    && Has(j, "boardId") && ObjectId(f, j.fields["boardId"])
    && Has(j, "title") && Bounded(j.fields["title"], 1, 100)
    && (Has(j, "description") ==> TextUpTo(j.fields["description"], 500))
  }

  predicate UpdateList(j: Json) {
    && OnlyKeys(j, {"title", "description"})
    && (Has(j, "title") ==> Bounded(j.fields["title"], 1, 100))
    && (Has(j, "description") ==> TextUpTo(j.fields["description"], 500))
  }

  predicate MoveList(f: Formats, j: Json) {
    && OnlyKeys(j, {"boardId", "targetIndex"})
    && Has(j, "boardId") && ObjectId(f, j.fields["boardId"])
    && Has(j, "targetIndex") && Index(j.fields["targetIndex"])
  }

  predicate CopyList(f: Formats, j: Json) {
    && OnlyKeys(j, {"targetBoardId", "title"})
    && Has(j, "targetBoardId") && ObjectId(f, j.fields["targetBoardId"])
    && (Has(j, "title") ==> Bounded(j.fields["title"], 1, 100))
  }

  /** The copy route refuses the `copyCards` and `targetIndex` options that the list service
      reads: a request naming either never reaches it. */
  lemma CopyListRefusesServiceOptions(f: Formats, j: Json)
    requires Has(j, "copyCards") || Has(j, "targetIndex")
    ensures !CopyList(f, j)
  {
  }

  // ----- workspace.js -----

  predicate CreateWorkspace(j: Json) {
    && OnlyKeys(j, {"title", "description"})
    && Has(j, "title") && Bounded(j.fields["title"], 1, 100)
    && (Has(j, "description") ==> TextUpTo(j.fields["description"], 500))
  }

  predicate UpdateWorkspace(j: Json) {
    && OnlyKeys(j, {"title", "description"})
    && (Has(j, "title") ==> Bounded(j.fields["title"], 1, 100))
    && (Has(j, "description") ==> TextUpTo(j.fields["description"], 500))
  }

  /** `addMemberSchema` is `userObjectSchema`. */
  predicate AddMember(f: Formats, j: Json) { UserObject(f, j) }

  /** A workspace update that sets the title is exactly a valid new workspace, and so is a list
      update that sets the title, and a new list without its board is a list update. */
  lemma UpdatesWithTitle(f: Formats, j: Json)
    ensures UpdateWorkspace(j) && Has(j, "title") <==> CreateWorkspace(j)
    ensures UpdateList(j) && Has(j, "title") <==> CreateWorkspace(j)
    ensures CreateList(f, j) ==> UpdateList(JObj(j.fields - {"boardId"}))
  {
    if CreateList(f, j) {
      var u := JObj(j.fields - {"boardId"});
      assert forall k :: k in u.fields ==> u.fields[k] == j.fields[k];
    }
  }
}
