/** The card service: creating, moving and copying cards, and the comments, attachments and
    assignees embedded in a card, each as a function from the database before the call to
    what the call returns and the database after it. */
module CardService {
  import opened Wrappers
  import opened Seqs
  import opened Text
  import opened Positions
  import opened Documents
  import opened CardCopy
  import opened Database

  /** `Card.find({ listId })`: the cards of one list, in store order. */
  function ListCards(db: Db, listId: Id): (r: seq<Card>)
    ensures forall k :: 0 <= k < |r| ==> r[k].listId == listId
  {
    Filter(db.cards, InList(listId))
  }

  /** `card.comments.id(commentId)`. */
  function FindComment(comments: seq<Comment>, id: Id): (r: Option<nat>)
    ensures r.Some? ==> r.value < |comments| && comments[r.value].id == id
    ensures r.Some? ==> forall j :: 0 <= j < r.value ==> comments[j].id != id
    ensures r.None? <==> forall j :: 0 <= j < |comments| ==> comments[j].id != id
  {
    FindIndex(comments, (m: Comment) => m.id == id)
  }

  /** `card.attachments.id(attachmentId)`. */
  function FindAttachment(attachments: seq<Attachment>, id: Id): (r: Option<nat>)
    ensures r.Some? ==> r.value < |attachments| && attachments[r.value].id == id
    ensures r.Some? ==> forall j :: 0 <= j < r.value ==> attachments[j].id != id
    ensures r.None? <==> forall j :: 0 <= j < |attachments| ==> attachments[j].id != id
  {
    FindIndex(attachments, (a: Attachment) => a.id == id)
  }

  /** What `deleteOne` on an attachment sub-document keeps: an attachment with another id
      (the sub-document is pulled from its array by id). */
  function OtherAttachment(attachmentId: Id): Attachment -> bool {
    (a: Attachment) => a.id != attachmentId
  }

  /** The `$pull` condition of `deleteComment`: a comment with another id. */
  function OtherComment(commentId: Id): Comment -> bool {
    (m: Comment) => m.id != commentId
  }

  /** Rewriting the comment found for an id, keeping the id, leaves it where it is found. */
  lemma FindCommentReplace(comments: seq<Comment>, k: nat, m: Comment)
    requires k < |comments| && FindComment(comments, m.id) == Some(k)
    ensures FindComment(comments[k := m], m.id) == Some(k)
  {
    assert forall j :: 0 <= j < k ==> comments[k := m][j] == comments[j];
    assert comments[k := m][k] == m;
  }

  // ---------------------------------------------------------------------------------------
  // createCard

  /** `createCard` without a target index: the new card is positioned at index "number of
      cards in the list", i.e. after all of them. */
  function CreateCard(db: Db, boardId: Id, listId: Id, title: string,
                      description: Option<string>): Outcome<Card>
  {
    var siblings := ListCards(db, listId);
    match CalculateNewPosition(siblings, |siblings|, None, CardId, CardPosition)
    case Failure(e) => Outcome(Failure(KeyFailure(e)), db)
    case Success(position) =>
      var id := Max(db.nextId, listId + 1);
      var card := Card(id, boardId, listId, title, description, position, [], [], [], [], None, None);
      Outcome(Success(card), db.(cards := db.cards + [card], nextId := id + 1))
  }


  /** Appending a card to the store appends it to the cards of its own list. */
  lemma ListCardsAppend(db: Db, card: Card, n: Id)
    ensures ListCards(db.(cards := db.cards + [card], nextId := n), card.listId)
         == ListCards(db, card.listId) + [card]
  {
    FilterConcat(db.cards, [card], InList(card.listId));
    FilterSingle(card, InList(card.listId));
  }

  /** `createCard` succeeds on a list whose cards carry distinct valid keys and stores one new
      card with a fresh id, the given board, list, title and description, and nothing else. */
  lemma CreateCardStores(db: Db, boardId: Id, listId: Id, title: string, description: Option<string>)
    requires Valid(db) && WellKeyed(ListCards(db, listId), CardPosition)
    ensures var o := CreateCard(db, boardId, listId, title, description);
      && o.result.Success? && Valid(o.db)
      && var card := o.result.value;
      && o.db.cards == db.cards + [card]
      && card == Card(card.id, boardId, listId, title, description, card.position,
                      [], [], [], [], None, None)
      && (forall k :: 0 <= k < |db.cards| ==> db.cards[k].id != card.id)
  {
    var siblings := ListCards(db, listId);
    CalculateNewPositionRank(siblings, |siblings|, None, CardId, CardPosition);
    var o := CreateCard(db, boardId, listId, title, description);
    ValidAppendCard(db, o.result.value, o.db.nextId);
  }

  /** The card `createCard` stores sorts after every card already in its list. */
  lemma CreateCardPlacesLast(db: Db, boardId: Id, listId: Id, title: string, description: Option<string>)
    requires WellKeyed(ListCards(db, listId), CardPosition)
    ensures var o := CreateCard(db, boardId, listId, title, description);
      && o.result.Success?
      && (forall k :: 0 <= k < |ListCards(db, listId)| ==>
            Less(ListCards(db, listId)[k].position, o.result.value.position))
      && SortByPosition(ListCards(o.db, listId), CardPosition)
         == SortByPosition(ListCards(db, listId), CardPosition) + [o.result.value]
  {
    var siblings := ListCards(db, listId);
    CalculateNewPositionRank(siblings, |siblings|, None, CardId, CardPosition);
    var o := CreateCard(db, boardId, listId, title, description);
    var card := o.result.value;
    var sorted := SortByPosition(siblings, CardPosition);
    CalculateNewPositionInserts(siblings, |siblings|, None, CardId, CardPosition, card);
    assert sorted[..|sorted|] == sorted && sorted[|sorted|..] == [];
    ListCardsAppend(db, card, o.db.nextId);
    AboveAll(siblings, CardPosition, card.position);
  }

  // ---------------------------------------------------------------------------------------
  // moveCard

  function MoveCard(db: Db, cardId: Id, listId: Id, boardId: Id, targetIndex: int)
    : Outcome<Option<Card>>
  {
    if FindBoard(db.boards, boardId).None? then
      Outcome(Failure(NotFound("Board not found")), db)
    else match FindList(db.lists, listId)
      case None => Outcome(Failure(NotFound("List not found")), db)
      case Some(l) =>
        if db.lists[l].boardId != boardId then
          Outcome(Failure(BadRequest("List does not belong to the specified board")), db)
        else
          var siblings := Filter(db.cards, InListExcept(listId, cardId));
          match CalculateNewPosition(siblings, targetIndex, None, CardId, CardPosition)
          case Failure(e) => Outcome(Failure(KeyFailure(e)), db)
          case Success(position) =>
            match FindCard(db.cards, cardId)
            case None => Outcome(Success(None), db)
            case Some(i) =>
              var moved := db.cards[i].(position := position, listId := listId, boardId := boardId);
              Outcome(Success(Some(moved)), db.(cards := db.cards[i := moved]))
  }

  /** The checks of `moveCard` come in this order (board, then list, then the list's board),
      and a failed call writes nothing. */
  lemma MoveCardValidationOrder(db: Db, cardId: Id, listId: Id, boardId: Id, targetIndex: int)
    ensures var o := MoveCard(db, cardId, listId, boardId, targetIndex);
      && (FindBoard(db.boards, boardId).None? ==> o.result == Failure(NotFound("Board not found")))
      && (FindBoard(db.boards, boardId).Some? && FindList(db.lists, listId).None? ==>
            o.result == Failure(NotFound("List not found")))
      && (FindBoard(db.boards, boardId).Some? && FindList(db.lists, listId).Some?
          && db.lists[FindList(db.lists, listId).value].boardId != boardId ==>
            o.result == Failure(BadRequest("List does not belong to the specified board")))
      && (o.result.Failure? || o.result == Success(None) ==> o.db == db)
  {
  }

  /** The moved card is left out of its own sibling set: the card's current position has no
      influence on where it goes. */
  lemma MoveCardIgnoresOwnPosition(db: Db, cardId: Id, listId: Id, boardId: Id,
                                   targetIndex: int, i: nat, p: Key)
    requires i < |db.cards| && FindCard(db.cards, cardId) == Some(i)
    ensures var db2 := db.(cards := db.cards[i := db.cards[i].(position := p)]);
      MoveCard(db2, cardId, listId, boardId, targetIndex).result
        == MoveCard(db, cardId, listId, boardId, targetIndex).result
  {
    var x := db.cards[i].(position := p);
    var db2 := db.(cards := db.cards[i := x]);
    FilterReplaceRejected(db.cards, i, x, InListExcept(listId, cardId));
    FindCardReplace(db.cards, i, x);
    var siblings := Filter(db.cards, InListExcept(listId, cardId));
    assert Filter(db2.cards, InListExcept(listId, cardId)) == siblings;
    var key := CalculateNewPosition(siblings, targetIndex, None, CardId, CardPosition);
    var passes := FindBoard(db.boards, boardId).Some? && FindList(db.lists, listId).Some?
      && db.lists[FindList(db.lists, listId).value].boardId == boardId;
    if passes && key.Success? {
      var moved := db.cards[i].(position := key.value, listId := listId, boardId := boardId);
      assert x.(position := key.value, listId := listId, boardId := boardId) == moved;
      assert MoveCard(db, cardId, listId, boardId, targetIndex).result == Success(Some(moved));
      assert MoveCard(db2, cardId, listId, boardId, targetIndex).result == Success(Some(moved));
    }
  }

  /** A successful move changes only the card's `position`, `listId` and `boardId`, leaves
      every other card as it was, and the card then sits at rank `clamp(targetIndex)` among
      the other cards of the target list. */
  lemma MoveCardPlaces(db: Db, cardId: Id, listId: Id, boardId: Id, targetIndex: int)
    requires Valid(db)
    requires FindBoard(db.boards, boardId).Some? && FindList(db.lists, listId).Some?
    requires db.lists[FindList(db.lists, listId).value].boardId == boardId
    requires FindCard(db.cards, cardId).Some?
    requires WellKeyed(Filter(db.cards, InListExcept(listId, cardId)), CardPosition)
    ensures var o := MoveCard(db, cardId, listId, boardId, targetIndex);
      var i := FindCard(db.cards, cardId).value;
      var sorted := SortByPosition(Filter(db.cards, InListExcept(listId, cardId)), CardPosition);
      var c := Clamp(targetIndex, |sorted|);
      && o.result.Success? && o.result.value.Some?
      && var moved := o.result.value.value;
      && moved == db.cards[i].(position := moved.position, listId := listId, boardId := boardId)
      && o.db == db.(cards := db.cards[i := moved])
      && Valid(o.db)
      && SortByPosition(ListCards(o.db, listId), CardPosition) == sorted[..c] + [moved] + sorted[c..]
  {
    var siblings := Filter(db.cards, InListExcept(listId, cardId));
    CalculateNewPositionRank(siblings, targetIndex, None, CardId, CardPosition);
    var o := MoveCard(db, cardId, listId, boardId, targetIndex);
    var i := FindCard(db.cards, cardId).value;
    var moved := o.result.value.value;
    ReplaceInGroupPlaces(db.cards, i, moved, InList(listId), InListExcept(listId, cardId),
                         targetIndex, CardId, CardPosition);
    ValidReplaceCard(db, i, moved, db.nextId);
  }

  // ---------------------------------------------------------------------------------------
  // Comments

  function AddComment(db: Db, cardId: Id, user: User, text: string): Outcome<Card>
  {
    match FindCard(db.cards, cardId)
    case None => Outcome(Failure(NotFound("Card not found")), db)
    case Some(i) =>
      var comment := Comment(db.nextId, UserRef(user.id, user.username, user.fullname), Trim(text), false);
      var card := db.cards[i].(comments := db.cards[i].comments + [comment]);
      Outcome(Success(card), db.(cards := db.cards[i := card], nextId := db.nextId + 1))
  }

  function UpdateComment(db: Db, cardId: Id, commentId: Id, text: string): Outcome<Card>
  {
    match FindCard(db.cards, cardId)
    case None => Outcome(Failure(NotFound("Card not found")), db)
    case Some(i) =>
      match FindComment(db.cards[i].comments, commentId)
      case None => Outcome(Failure(NotFound("Comment not found")), db)
      case Some(k) =>
        var stored := db.cards[i].comments[k];
        var trimmed := Trim(text);
        var updated := if stored.text != trimmed then stored.(text := trimmed, isEdited := true) else stored;
        var card := db.cards[i].(comments := db.cards[i].comments[k := updated]);
        Outcome(Success(card), db.(cards := db.cards[i := card]))
  }

  function DeleteComment(db: Db, cardId: Id, commentId: Id): Outcome<Card>
  {
    match FindCard(db.cards, cardId)
    case None => Outcome(Failure(NotFound("Card not found")), db)
    case Some(i) =>
      if FindComment(db.cards[i].comments, commentId).None? then
        Outcome(Failure(NotFound("Comment not found")), db)
      else
        var card := db.cards[i].(comments := Filter(db.cards[i].comments, OtherComment(commentId)));
        Outcome(Success(card), db.(cards := db.cards[i := card]))
  }

  /** `addComment` fails with a 404 for an unknown card; otherwise it appends one comment
      (trimmed text, the user as author, not edited, a fresh id) and changes nothing else. */
  lemma AddCommentEffect(db: Db, cardId: Id, user: User, text: string)
    requires Valid(db)
    ensures var o := AddComment(db, cardId, user, text);
      && (FindCard(db.cards, cardId).None? ==> o == Outcome(Failure(NotFound("Card not found")), db))
      && (FindCard(db.cards, cardId).Some? ==>
            var i := FindCard(db.cards, cardId).value;
            && o.result.Success?
            && o.result.value == db.cards[i].(comments := db.cards[i].comments
                 + [Comment(db.nextId, UserRef(user.id, user.username, user.fullname), Trim(text), false)])
            && o.db == db.(cards := db.cards[i := o.result.value], nextId := db.nextId + 1)
            && Valid(o.db))
  {
    if FindCard(db.cards, cardId).Some? {
      var i := FindCard(db.cards, cardId).value;
      ValidPushComment(db, i, Comment(db.nextId, UserRef(user.id, user.username, user.fullname), Trim(text), false));
    }
  }

  /** Deleting the comment just added restores the card, when no comment on the card had
      that id before (as in a valid store, where comment ids lie below `nextId`). */
  lemma DeleteAfterAddComment(db: Db, cardId: Id, user: User, text: string)
    requires FindCard(db.cards, cardId).Some?
    requires var i := FindCard(db.cards, cardId).value;
      forall k :: 0 <= k < |db.cards[i].comments| ==> db.cards[i].comments[k].id < db.nextId
    ensures var i := FindCard(db.cards, cardId).value;
      var o := AddComment(db, cardId, user, text);
      DeleteComment(o.db, cardId, db.nextId) == Outcome(Success(db.cards[i]), o.db.(cards := db.cards))
  {
    var i := FindCard(db.cards, cardId).value;
    var before := db.cards[i].comments;
    var m := Comment(db.nextId, UserRef(user.id, user.username, user.fullname), Trim(text), false);
    var card := db.cards[i].(comments := before + [m]);
    var db1 := db.(cards := db.cards[i := card], nextId := db.nextId + 1);
    assert AddComment(db, cardId, user, text) == Outcome(Success(card), db1);
    FindCardReplace(db.cards, i, card);
    PulledFound(before, m);
    PulledFilter(before, m);
    assert card.(comments := before) == db.cards[i];
    UpdateSame(db.cards, i, card, db.cards[i]);
    assert DeleteComment(db1, cardId, db.nextId)
        == Outcome(Success(db.cards[i]), db1.(cards := db1.cards[i := db.cards[i]]));
  }

  lemma PulledFound(comments: seq<Comment>, m: Comment)
    requires forall k :: 0 <= k < |comments| ==> comments[k].id < m.id
    ensures FindComment(comments + [m], m.id) == Some(|comments|)
  {
    assert (comments + [m])[|comments|] == m;
    assert forall k :: 0 <= k < |comments| ==> (comments + [m])[k] == comments[k];
  }

  /** Pulling the id of a comment just pushed, whose id no earlier comment carries, leaves
      the earlier ones. */
  lemma PulledFilter(comments: seq<Comment>, m: Comment)
    requires forall k :: 0 <= k < |comments| ==> comments[k].id < m.id
    ensures Filter(comments + [m], OtherComment(m.id)) == comments
  {
    FilterConcat(comments, [m], OtherComment(m.id));
    FilterSingle(m, OtherComment(m.id));
    FilterKeepsAll(comments, OtherComment(m.id));
  }

  /** `updateComment` stores the trimmed text and marks the comment edited exactly when that
      text differs from the stored one; its id and author, the other comments and the other
      cards stay as they were. A missing card or comment is a 404 that writes nothing. */
  lemma UpdateCommentEffect(db: Db, cardId: Id, commentId: Id, text: string)
    ensures var o := UpdateComment(db, cardId, commentId, text);
      && (FindCard(db.cards, cardId).None? ==> o == Outcome(Failure(NotFound("Card not found")), db))
      && (FindCard(db.cards, cardId).Some?
          && FindComment(db.cards[FindCard(db.cards, cardId).value].comments, commentId).None? ==>
            o == Outcome(Failure(NotFound("Comment not found")), db))
      && (o.result.Success? ==>
            var i := FindCard(db.cards, cardId).value;
            var before := db.cards[i].comments;
            var k := FindComment(before, commentId).value;
            var after := o.result.value.comments;
            && o.db.cards == db.cards[i := o.result.value]
            && o.result.value == db.cards[i].(comments := after)
            && |after| == |before|
            && (forall j :: 0 <= j < |before| && j != k ==> after[j] == before[j])
            && after[k].id == before[k].id && after[k].author == before[k].author
            && after[k].text == Trim(text)
            && after[k].isEdited == (before[k].isEdited || before[k].text != Trim(text)))
  {
  }

  /** Repeating an update with the same text changes nothing more. */
  lemma UpdateCommentIdempotent(db: Db, cardId: Id, commentId: Id, text: string)
    ensures var o := UpdateComment(db, cardId, commentId, text);
      UpdateComment(o.db, cardId, commentId, text) == o
  {
    var o := UpdateComment(db, cardId, commentId, text);
    if o.result.Success? {
      var i := FindCard(db.cards, cardId).value;
      var k := FindComment(db.cards[i].comments, commentId).value;
      var stored := db.cards[i].comments[k];
      var trimmed := Trim(text);
      var updated := if stored.text != trimmed then stored.(text := trimmed, isEdited := true) else stored;
      var card := db.cards[i].(comments := db.cards[i].comments[k := updated]);
      assert o == Outcome(Success(card), db.(cards := db.cards[i := card]));
      FindCardReplace(db.cards, i, card);
      FindCommentReplace(db.cards[i].comments, k, updated);
      UpdateSame(card.comments, k, updated, updated);
      UpdateSame(o.db.cards, i, card, card);
    }
  }

  /** `deleteComment` removes every comment with that id and keeps the rest in order. */
  lemma DeleteCommentEffect(db: Db, cardId: Id, commentId: Id)
    ensures var o := DeleteComment(db, cardId, commentId);
      && (FindCard(db.cards, cardId).None? ==> o == Outcome(Failure(NotFound("Card not found")), db))
      && (o.result.Failure? ==> o.db == db)
      && (o.result.Success? ==>
            var i := FindCard(db.cards, cardId).value;
            var after := o.result.value.comments;
            && FindComment(db.cards[i].comments, commentId).Some?
            && o.db.cards == db.cards[i := o.result.value]
            && o.result.value == db.cards[i].(comments := after)
            && (forall j :: 0 <= j < |after| ==> after[j].id != commentId && after[j] in db.cards[i].comments)
            && (forall j :: 0 <= j < |db.cards[i].comments| && db.cards[i].comments[j].id != commentId
                  ==> db.cards[i].comments[j] in after))
  {
    if FindCard(db.cards, cardId).Some? {
      FilterMembers(db.cards[FindCard(db.cards, cardId).value].comments, OtherComment(commentId));
    }
  }

  // ---------------------------------------------------------------------------------------
  // Attachments

  /** The attachment `addAttachment` pushes: every field a trimmed string. */
  function NewAttachment(id: Id, url: string, name: Option<string>, publicId: Option<string>): Attachment
  {
    Attachment(id, Trim(url), Trim(name.GetOr("")), Trim(publicId.GetOr("")))
  }

  /** `addAttachment`: `url` is required (absent or empty is a 400, checked before the card
      is loaded); `name` and `publicId` default to the empty string; all three are trimmed. */
  function AddAttachment(db: Db, cardId: Id, url: Option<string>, name: Option<string>,
                         publicId: Option<string>): Outcome<Card>
  {
    if url.None? || |url.value| == 0 then Outcome(Failure(BadRequest("url is required")), db)
    else match FindCard(db.cards, cardId)
      case None => Outcome(Failure(NotFound("Card not found")), db)
      case Some(i) =>
        var attachment := NewAttachment(db.nextId, url.value, name, publicId);
        var card := db.cards[i].(attachments := db.cards[i].attachments + [attachment]);
        Outcome(Success(card), db.(cards := db.cards[i := card], nextId := db.nextId + 1))
  }

  /** `removeAttachment`: 404 for a missing card or attachment; otherwise `deleteOne` on the
      sub-document found pulls every attachment with its id from the card. */
  function RemoveAttachment(db: Db, cardId: Id, attachmentId: Id): Outcome<Card>
  {
    match FindCard(db.cards, cardId)
    case None => Outcome(Failure(NotFound("Card not found")), db)
    case Some(i) =>
      if FindAttachment(db.cards[i].attachments, attachmentId).None? then
        Outcome(Failure(NotFound("Attachment not found")), db)
      else
        var card := db.cards[i].(attachments := Filter(db.cards[i].attachments, OtherAttachment(attachmentId)));
        Outcome(Success(card), db.(cards := db.cards[i := card]))
  }

  /** A missing or empty url is rejected before anything else, whether or not the card
      exists. */
  lemma AddAttachmentNeedsUrl(db: Db, cardId: Id, url: Option<string>, name: Option<string>,
                              publicId: Option<string>)
    ensures var o := AddAttachment(db, cardId, url, name, publicId);
      && (o.result == Failure(BadRequest("url is required")) <==> url.None? || |url.value| == 0)
      && (o.result.Failure? ==> o.db == db)
      && (o.result.Success? <==> url.Some? && |url.value| > 0 && FindCard(db.cards, cardId).Some?)
  {
  }

  /** On a stored card, `addAttachment` with a url appends one attachment with the trimmed
      url, name and public id and a fresh id, and changes nothing else. */
  lemma AddAttachmentEffect(db: Db, cardId: Id, url: string, name: Option<string>,
                            publicId: Option<string>)
    requires Valid(db) && FindCard(db.cards, cardId).Some? && |url| > 0
    ensures var i := FindCard(db.cards, cardId).value;
      var card := db.cards[i].(attachments := db.cards[i].attachments
                                 + [NewAttachment(db.nextId, url, name, publicId)]);
      var db' := db.(cards := db.cards[i := card], nextId := db.nextId + 1);
      AddAttachment(db, cardId, Some(url), name, publicId) == Outcome(Success(card), db') && Valid(db')
  {
    var i := FindCard(db.cards, cardId).value;
    ValidPushAttachment(db, i, NewAttachment(db.nextId, url, name, publicId));
  }

  /** In a valid store, removing the attachment just added restores the card. */
  lemma RemoveAfterAddAttachment(db: Db, cardId: Id, url: string, name: Option<string>,
                                 publicId: Option<string>)
    requires Valid(db) && FindCard(db.cards, cardId).Some? && |url| > 0
    ensures var i := FindCard(db.cards, cardId).value;
      var o := AddAttachment(db, cardId, Some(url), name, publicId);
      RemoveAttachment(o.db, cardId, db.nextId) == Outcome(Success(db.cards[i]), o.db.(cards := db.cards))
  {
    var i := FindCard(db.cards, cardId).value;
    var before := db.cards[i].attachments;
    var a := NewAttachment(db.nextId, url, name, publicId);
    var card := db.cards[i].(attachments := before + [a]);
    var db1 := db.(cards := db.cards[i := card], nextId := db.nextId + 1);
    AddAttachmentEffect(db, cardId, url, name, publicId);
    FindCardReplace(db.cards, i, card);
    SubdocIdsBelow(db, i);
    assert (before + [a])[|before|] == a;
    PulledAttachment(before, a);
    assert RemoveAttachment(db1, cardId, db.nextId)
      == Outcome(Success(card.(attachments := before)), db1.(cards := db1.cards[i := card.(attachments := before)]));
    assert card.(attachments := before) == db.cards[i];
    UpdateSame(db.cards, i, card, db.cards[i]);
  }

  /** Pulling the id of an attachment just pushed, whose id no earlier attachment carries,
      leaves the earlier ones. */
  lemma PulledAttachment(attachments: seq<Attachment>, a: Attachment)
    requires forall k :: 0 <= k < |attachments| ==> attachments[k].id < a.id
    ensures Filter(attachments + [a], OtherAttachment(a.id)) == attachments
  {
    FilterConcat(attachments, [a], OtherAttachment(a.id));
    FilterSingle(a, OtherAttachment(a.id));
    FilterKeepsAll(attachments, OtherAttachment(a.id));
  }

  /** `removeAttachment` fails with a 404 and writes nothing for a missing card or attachment;
      otherwise it removes every attachment with that id, keeps the others in order and
      changes nothing else. */
  lemma RemoveAttachmentEffect(db: Db, cardId: Id, attachmentId: Id)
    ensures var o := RemoveAttachment(db, cardId, attachmentId);
      && (FindCard(db.cards, cardId).None? ==> o == Outcome(Failure(NotFound("Card not found")), db))
      && (o.result.Failure? ==> o.db == db)
      && (o.result.Success? <==>
            FindCard(db.cards, cardId).Some?
            && FindAttachment(db.cards[FindCard(db.cards, cardId).value].attachments, attachmentId).Some?)
      && (o.result.Success? ==>
            var i := FindCard(db.cards, cardId).value;
            var before := db.cards[i].attachments;
            var after := o.result.value.attachments;
            && o.db.cards == db.cards[i := o.result.value]
            && o.result.value == db.cards[i].(attachments := after)
            && |after| < |before|
            && (forall j :: 0 <= j < |after| ==> after[j].id != attachmentId && after[j] in before)
            && (forall j :: 0 <= j < |before| && before[j].id != attachmentId ==> before[j] in after))
  {
    var o := RemoveAttachment(db, cardId, attachmentId);
    if o.result.Success? {
      var before := db.cards[FindCard(db.cards, cardId).value].attachments;
      FilterMembers(before, OtherAttachment(attachmentId));
      FilterDropsSome(before, FindAttachment(before, attachmentId).value, OtherAttachment(attachmentId));
    }
  }

  // ---------------------------------------------------------------------------------------
  // Assignees

  function AddCardAssignee(db: Db, cardId: Id, userId: Id): Outcome<Card>
  {
    match FindCard(db.cards, cardId)
    case None => Outcome(Failure(NotFound("Card not found")), db)
    case Some(i) =>
      match FindBoard(db.boards, db.cards[i].boardId)
      case None => Outcome(Failure(NotFound("Board not found")), db)
      case Some(b) =>
        match FindUser(db.users, userId)
        case None => Outcome(Failure(NotFound("User not found")), db)
        case Some(u) =>
          if !HasUser(db.boards[b].members, userId) then
            Outcome(Failure(BadRequest("User is not a board member")), db)
          else if HasUser(db.cards[i].assignees, userId) then
            Outcome(Failure(BadRequest("User is already assigned to this card")), db)
          else
            var user := db.users[u];
            var card := db.cards[i].(assignees := db.cards[i].assignees
                                       + [UserRef(userId, user.username, user.fullname)]);
            Outcome(Success(card), db.(cards := db.cards[i := card]))
  }

  /** `addCardAssignee` succeeds exactly when the card, its board and the user exist, the
      user is a member of the card's board and not yet assigned; it then appends the user and
      changes nothing else. Any failure writes nothing. */
  lemma AddCardAssigneeEffect(db: Db, cardId: Id, userId: Id)
    ensures var o := AddCardAssignee(db, cardId, userId);
      && (o.result.Failure? ==> o.db == db)
      && (o.result.Success? <==>
            && FindCard(db.cards, cardId).Some?
            && var card := db.cards[FindCard(db.cards, cardId).value];
            && FindBoard(db.boards, card.boardId).Some?
            && FindUser(db.users, userId).Some?
            && HasUser(db.boards[FindBoard(db.boards, card.boardId).value].members, userId)
            && !HasUser(card.assignees, userId))
      && (o.result.Success? ==>
            var i := FindCard(db.cards, cardId).value;
            var user := db.users[FindUser(db.users, userId).value];
            && o.result.value == db.cards[i].(assignees := db.cards[i].assignees
                                     + [UserRef(userId, user.username, user.fullname)])
            && o.db == db.(cards := db.cards[i := o.result.value]))
  {
  }

  /** Assigning the same user twice fails the second time with a 400 and writes nothing. */
  lemma AddCardAssigneeTwice(db: Db, cardId: Id, userId: Id)
    requires AddCardAssignee(db, cardId, userId).result.Success?
    ensures var o := AddCardAssignee(db, cardId, userId);
      AddCardAssignee(o.db, cardId, userId)
        == Outcome(Failure(BadRequest("User is already assigned to this card")), o.db)
  {
    var o := AddCardAssignee(db, cardId, userId);
    var i := FindCard(db.cards, cardId).value;
    FindCardReplace(db.cards, i, o.result.value);
    var a := o.result.value.assignees;
    assert a[|a| - 1].userId == userId;
  }

  // ---------------------------------------------------------------------------------------
  // copyCard

  /** The board `copyCard` loads: whenever a target board id is supplied (the comparison with
      the source's board id never holds between a string and an ObjectId). */
  function TargetBoardLookup(db: Db, targetBoardId: Option<Id>): (r: Result<Option<Board>, Failure>)
    ensures targetBoardId.None? ==> r == Success(None)
    ensures r.Success? && r.value.Some? ==> r.value.value in db.boards
  {
    match targetBoardId
    case None => Success(None)
    case Some(b) =>
      match FindBoard(db.boards, b)
      case None => Failure(NotFound("Target board not found"))
      case Some(k) => Success(Some(db.boards[k]))
  }

  function CopyCard(db: Db, cardId: Id, opts: CopyOptions): (o: Outcome<Card>)
    ensures OnlyCardsChanged(db, o.db)
  {
    match FindCard(db.cards, cardId)
    case None => Outcome(Failure(NotFound("Source card not found")), db)
    case Some(s) =>
      match TargetBoardLookup(db, opts.targetBoardId)
      case Failure(f) => Outcome(Failure(f), db)
      case Success(targetBoard) => WriteCopy(db, db.cards[s], opts, targetBoard)
  }

  /** The part of `copyCard` after both lookups: place the copy in the target list and
      store it, its id followed by the ids of its copied comments. */
  function WriteCopy(db: Db, source: Card, opts: CopyOptions, targetBoard: Option<Board>): Outcome<Card>
  {
    match CopyKey(db, source, opts)
    case Failure(e) => Outcome(Failure(KeyFailure(e)), db)
    case Success(position) =>
      var id := Max(db.nextId, opts.targetListId.GetOr(source.listId) + 1);
      var card := CopiedCard(source, opts, id, position, db.users, targetBoard);
      Outcome(Success(card), db.(cards := db.cards + [card], nextId := id + 1 + |card.comments|))
  }

  /** The key of the copy: at the target index (by default the end) of the final list. */
  function CopyKey(db: Db, source: Card, opts: CopyOptions): Result<Key, KeyError>
  {
    var targetCards := ListCards(db, opts.targetListId.GetOr(source.listId));
    CalculateNewPosition(targetCards, opts.targetIndex.GetOr(|targetCards|), None, CardId, CardPosition)
  }

  /** Once the key of the copy is found, `WriteCopy` appends the card the carry-over rules
      build under the next id past the final list's. */
  lemma WriteCopyAt(db: Db, source: Card, opts: CopyOptions, targetBoard: Option<Board>, position: Key)
    requires CopyKey(db, source, opts) == Success(position)
    ensures var id := Max(db.nextId, opts.targetListId.GetOr(source.listId) + 1);
      var card := CopiedCard(source, opts, id, position, db.users, targetBoard);
      WriteCopy(db, source, opts, targetBoard)
        == Outcome(Success(card), db.(cards := db.cards + [card], nextId := id + 1 + |card.comments|))
  {
  }

  /** `copyCard` fails with a 404 for a missing source card, then with a 404 for a supplied
      target board that does not exist, and writes nothing when it fails. */
  lemma CopyCardFailures(db: Db, cardId: Id, opts: CopyOptions)
    ensures var o := CopyCard(db, cardId, opts);
      && (FindCard(db.cards, cardId).None? ==> o.result == Failure(NotFound("Source card not found")))
      && (FindCard(db.cards, cardId).Some? && opts.targetBoardId.Some?
          && FindBoard(db.boards, opts.targetBoardId.value).None? ==>
            o.result == Failure(NotFound("Target board not found")))
      && (o.result.Failure? ==> o.db == db)
  {
  }

  /** Once the source card and the target board are loaded, a copy into a list whose cards
      carry distinct valid keys succeeds and appends the card the carry-over rules build,
      with an id above every id handed out so far and above the target list's id; the ids
      of its comments follow it and `nextId` moves past them. */
  lemma WriteCopySucceeds(db: Db, source: Card, opts: CopyOptions, targetBoard: Option<Board>)
    requires WellKeyed(ListCards(db, opts.targetListId.GetOr(source.listId)), CardPosition)
    ensures var o := WriteCopy(db, source, opts, targetBoard);
      && o.result.Success?
      && var card := o.result.value;
      && card == CopiedCard(source, opts, card.id, card.position, db.users, targetBoard)
      && card.id >= db.nextId && card.id > opts.targetListId.GetOr(source.listId)
      && o.db == db.(cards := db.cards + [card], nextId := card.id + 1 + |card.comments|)
  {
    var listId := opts.targetListId.GetOr(source.listId);
    var siblings := ListCards(db, listId);
    CalculateNewPositionRank(siblings, opts.targetIndex.GetOr(|siblings|), None, CardId, CardPosition);
  }

  /** Such a copy keeps the ids unique, and the new card's id was never handed out. */
  lemma WriteCopyStores(db: Db, source: Card, opts: CopyOptions, targetBoard: Option<Board>)
    requires Valid(db)
    requires WellKeyed(ListCards(db, opts.targetListId.GetOr(source.listId)), CardPosition)
    ensures var o := WriteCopy(db, source, opts, targetBoard);
      && o.result.Success? && Valid(o.db)
      && (forall k :: 0 <= k < |db.cards| ==> db.cards[k].id != o.result.value.id)
  {
    WriteCopySucceeds(db, source, opts, targetBoard);
    var o := WriteCopy(db, source, opts, targetBoard);
    var card := o.result.value;
    assert forall k :: 0 <= k < |card.comments| ==> card.comments[k].id < o.db.nextId;
    ValidAppendCard(db, card, o.db.nextId);
  }

  /** The copy lands at rank `clamp(targetIndex)` of the target list in position order
      (default: after every card there). */
  lemma WriteCopyPlaces(db: Db, source: Card, opts: CopyOptions, targetBoard: Option<Board>)
    requires WellKeyed(ListCards(db, opts.targetListId.GetOr(source.listId)), CardPosition)
    ensures var o := WriteCopy(db, source, opts, targetBoard);
      var listId := opts.targetListId.GetOr(source.listId);
      var sorted := SortByPosition(ListCards(db, listId), CardPosition);
      var c := Clamp(opts.targetIndex.GetOr(|sorted|), |sorted|);
      && o.result.Success? && o.result.value.listId == listId
      && ValidKey(o.result.value.position)
      && (forall j :: 0 <= j < c ==> Less(sorted[j].position, o.result.value.position))
      && (forall j :: c <= j < |sorted| ==> Less(o.result.value.position, sorted[j].position))
      && SortByPosition(ListCards(o.db, listId), CardPosition) == sorted[..c] + [o.result.value] + sorted[c..]
  {
    var listId := opts.targetListId.GetOr(source.listId);
    var siblings := ListCards(db, listId);
    var index := opts.targetIndex.GetOr(|siblings|);
    WriteCopySucceeds(db, source, opts, targetBoard);
    CalculateNewPositionRank(siblings, index, None, CardId, CardPosition);
    var o := WriteCopy(db, source, opts, targetBoard);
    var card := o.result.value;
    assert CalculateNewPosition(siblings, index, None, CardId, CardPosition) == Success(card.position);
    SortByPositionSorted(siblings, CardPosition);
    CalculateNewPositionInserts(siblings, index, None, CardId, CardPosition, card);
    ListCardsAppend(db, card, o.db.nextId);
  }

  /** A copy of a stored card onto an existing (or no) target board, into a list whose cards
      carry distinct valid keys, succeeds: it appends the card built by the carry-over rules
      from the source, the store's users and the loaded target board, with a fresh id, at rank
      `clamp(targetIndex)` of the target list (default: the source's list, after every card). */
  lemma CopyCardWrites(db: Db, cardId: Id, opts: CopyOptions)
    requires Valid(db) && FindCard(db.cards, cardId).Some?
    requires opts.targetBoardId.Some? ==> FindBoard(db.boards, opts.targetBoardId.value).Some?
    requires var source := db.cards[FindCard(db.cards, cardId).value];
      WellKeyed(ListCards(db, opts.targetListId.GetOr(source.listId)), CardPosition)
    ensures var o := CopyCard(db, cardId, opts);
      var source := db.cards[FindCard(db.cards, cardId).value];
      var listId := opts.targetListId.GetOr(source.listId);
      var targetBoard := TargetBoardLookup(db, opts.targetBoardId);
      var sorted := SortByPosition(ListCards(db, listId), CardPosition);
      var c := Clamp(opts.targetIndex.GetOr(|sorted|), |sorted|);
      && targetBoard.Success? && o == WriteCopy(db, source, opts, targetBoard.value)
      && o.result.Success? && Valid(o.db)
      && var card := o.result.value;
      && card == CopiedCard(source, opts, card.id, card.position, db.users, targetBoard.value)
      && card.listId == listId
      && (forall k :: 0 <= k < |db.cards| ==> db.cards[k].id != card.id)
      && o.db == db.(cards := db.cards + [card], nextId := o.db.nextId)
      && ValidKey(card.position)
      && (forall j :: 0 <= j < c ==> Less(sorted[j].position, card.position))
      && (forall j :: c <= j < |sorted| ==> Less(card.position, sorted[j].position))
      && SortByPosition(ListCards(o.db, listId), CardPosition) == sorted[..c] + [card] + sorted[c..]
  {
    var source := db.cards[FindCard(db.cards, cardId).value];
    var targetBoard := TargetBoardLookup(db, opts.targetBoardId);
    WriteCopySucceeds(db, source, opts, targetBoard.value);
    WriteCopyStores(db, source, opts, targetBoard.value);
    WriteCopyPlaces(db, source, opts, targetBoard.value);
  }

  // ---------------------------------------------------------------------------------------
  // Every card write keeps the ids of the store unique

  lemma CreateCardValid(db: Db, boardId: Id, listId: Id, title: string, description: Option<string>)
    requires Valid(db)
    ensures Valid(CreateCard(db, boardId, listId, title, description).db)
  {
    var o := CreateCard(db, boardId, listId, title, description);
    if o.result.Success? {
      ValidAppendCard(db, o.result.value, o.db.nextId);
    }
  }

  lemma MoveCardValid(db: Db, cardId: Id, listId: Id, boardId: Id, targetIndex: int)
    requires Valid(db)
    ensures Valid(MoveCard(db, cardId, listId, boardId, targetIndex).db)
  {
    var o := MoveCard(db, cardId, listId, boardId, targetIndex);
    if o.result.Success? && o.result.value.Some? {
      var i := FindCard(db.cards, cardId).value;
      SubdocIdsBelow(db, i);
      ValidRewriteCard(db, i, o.result.value.value);
    }
  }

  lemma AddCommentValid(db: Db, cardId: Id, user: User, text: string)
    requires Valid(db)
    ensures Valid(AddComment(db, cardId, user, text).db)
  {
    match FindCard(db.cards, cardId)
    case None =>
    case Some(i) =>
      ValidPushComment(db, i, Comment(db.nextId, UserRef(user.id, user.username, user.fullname), Trim(text), false));
  }

  lemma UpdateCommentValid(db: Db, cardId: Id, commentId: Id, text: string)
    requires Valid(db)
    ensures Valid(UpdateComment(db, cardId, commentId, text).db)
  {
    var o := UpdateComment(db, cardId, commentId, text);
    if o.result.Success? {
      var i := FindCard(db.cards, cardId).value;
      var k := FindComment(db.cards[i].comments, commentId).value;
      SubdocIdsBelow(db, i);
      var card := o.result.value;
      assert card.comments == db.cards[i].comments[k := card.comments[k]];
      ValidRewriteCard(db, i, card);
    }
  }

  lemma DeleteCommentValid(db: Db, cardId: Id, commentId: Id)
    requires Valid(db)
    ensures Valid(DeleteComment(db, cardId, commentId).db)
  {
    var o := DeleteComment(db, cardId, commentId);
    if o.result.Success? {
      var i := FindCard(db.cards, cardId).value;
      SubdocIdsBelow(db, i);
      var comments := db.cards[i].comments;
      var kept := Filter(comments, OtherComment(commentId));
      FilterMembers(comments, OtherComment(commentId));
      forall k | 0 <= k < |kept| ensures kept[k].id < db.nextId {
        var j :| 0 <= j < |comments| && comments[j] == kept[k];
      }
      ValidRewriteCard(db, i, o.result.value);
    }
  }

  lemma AddAttachmentValid(db: Db, cardId: Id, url: Option<string>, name: Option<string>,
                           publicId: Option<string>)
    requires Valid(db)
    ensures Valid(AddAttachment(db, cardId, url, name, publicId).db)
  {
    var o := AddAttachment(db, cardId, url, name, publicId);
    if o.result.Success? {
      var i := FindCard(db.cards, cardId).value;
      ValidPushAttachment(db, i, NewAttachment(db.nextId, url.value, name, publicId));
    }
  }

  lemma RemoveAttachmentValid(db: Db, cardId: Id, attachmentId: Id)
    requires Valid(db)
    ensures Valid(RemoveAttachment(db, cardId, attachmentId).db)
  {
    var o := RemoveAttachment(db, cardId, attachmentId);
    if o.result.Success? {
      var i := FindCard(db.cards, cardId).value;
      SubdocIdsBelow(db, i);
      var a := db.cards[i].attachments;
      var kept := Filter(a, OtherAttachment(attachmentId));
      FilterMembers(a, OtherAttachment(attachmentId));
      forall k | 0 <= k < |kept| ensures kept[k].id < db.nextId {
        var j :| 0 <= j < |a| && a[j] == kept[k];
      }
      ValidRewriteCard(db, i, o.result.value);
    }
  }

  lemma AddCardAssigneeValid(db: Db, cardId: Id, userId: Id)
    requires Valid(db)
    ensures Valid(AddCardAssignee(db, cardId, userId).db)
  {
    var o := AddCardAssignee(db, cardId, userId);
    if o.result.Success? {
      var i := FindCard(db.cards, cardId).value;
      SubdocIdsBelow(db, i);
      ValidRewriteCard(db, i, o.result.value);
    }
  }

  lemma WriteCopyValid(db: Db, source: Card, opts: CopyOptions, targetBoard: Option<Board>)
    requires Valid(db)
    ensures Valid(WriteCopy(db, source, opts, targetBoard).db)
  {
    var o := WriteCopy(db, source, opts, targetBoard);
    if o.result.Success? {
      var card := o.result.value;
      assert forall k :: 0 <= k < |card.comments| ==> card.comments[k].id < o.db.nextId;
      ValidAppendCard(db, card, o.db.nextId);
    }
  }

  lemma CopyCardValid(db: Db, cardId: Id, opts: CopyOptions)
    requires Valid(db)
    ensures Valid(CopyCard(db, cardId, opts).db)
  {
    match FindCard(db.cards, cardId)
    case None =>
    case Some(s) =>
      match TargetBoardLookup(db, opts.targetBoardId)
      case Failure(_) =>
      case Success(targetBoard) => WriteCopyValid(db, db.cards[s], opts, targetBoard);
  }
}
