/** The drag-and-drop helpers of the board page: `reorderCards` only finds the dragged
    card, `reorderLists` moves one list of the board's array to another index. */
module Dnd {
  import opened Wrappers
  import opened Seqs
  import opened Documents

  /** `splice(i, 1)` on a copy: `s` without its element at `i`. */
  function RemoveAt<T>(s: seq<T>, i: nat): (r: seq<T>)
    requires i < |s|
    ensures |r| == |s| - 1
    ensures forall k :: 0 <= k < |r| ==> r[k] == if k < i then s[k] else s[k + 1]
  {
    s[..i] + s[i + 1..]
  }

  /** `splice(j, 0, x)` on a copy: `s` with `x` inserted in front of its element at `j`. */
  function InsertAt<T>(s: seq<T>, j: nat, x: T): (r: seq<T>)
    requires j <= |s|
    ensures |r| == |s| + 1
    ensures r[j] == x
    ensures forall k :: 0 <= k < |r| && k != j ==> r[k] == if k < j then s[k] else s[k - 1]
  {
    s[..j] + [x] + s[j..]
  }

  /** The array `reorderLists` builds: the element at `i` taken out and put back at `j`. */
  function Moved<T>(s: seq<T>, i: nat, j: nat): seq<T>
    requires i < |s| && j < |s|
  {
    InsertAt(RemoveAt(s, i), j, s[i])
  }

  /** A move only reorders: the same elements, as often as before. */
  lemma MovedPermutation<T>(s: seq<T>, i: nat, j: nat)
    requires i < |s| && j < |s|
    ensures |Moved(s, i, j)| == |s|
    ensures multiset(Moved(s, i, j)) == multiset(s)
  {
    var rest := RemoveAt(s, i);
    assert s == s[..i] + [s[i]] + s[i + 1..];
    assert rest == s[..i] + s[i + 1..];
    calc {
      multiset(Moved(s, i, j));
      { assert Moved(s, i, j) == rest[..j] + [s[i]] + rest[j..]; }
      multiset(rest[..j]) + multiset{s[i]} + multiset(rest[j..]);
      { assert rest == rest[..j] + rest[j..]; }
      multiset(rest) + multiset{s[i]};
      multiset(s);
    }
  }

  /** The moved element lands at `j`, and taking it out again gives back the other elements
      in their old relative order. */
  lemma MovedKeepsOthers<T>(s: seq<T>, i: nat, j: nat)
    requires i < |s| && j < |s|
    ensures Moved(s, i, j)[j] == s[i]
    ensures RemoveAt(Moved(s, i, j), j) == RemoveAt(s, i)
  {
    var m := Moved(s, i, j);
    var rest := RemoveAt(s, i);
    forall k | 0 <= k < |rest| ensures RemoveAt(m, j)[k] == rest[k] {
      if k < j {
        assert RemoveAt(m, j)[k] == m[k];
      } else {
        assert RemoveAt(m, j)[k] == m[k + 1];
      }
    }
  }

  /** Moving back from `j` to `i` undoes the move. */
  lemma MovedUndo<T>(s: seq<T>, i: nat, j: nat)
    requires i < |s| && j < |s|
    ensures Moved(Moved(s, i, j), j, i) == s
  {
    var m := Moved(s, i, j);
    MovedKeepsOthers(s, i, j);
    var back := Moved(m, j, i);
    assert RemoveAt(m, j) == RemoveAt(s, i);
    forall k | 0 <= k < |s| ensures back[k] == s[k] {
      if k < i {
        assert back[k] == RemoveAt(s, i)[k];
      } else if k > i {
        assert back[k] == RemoveAt(s, i)[k - 1];
      }
    }
  }

  /** What `reorderLists` returns: the new array, the list that moved and the ids of its new
      neighbours (`null` at either end). */
  datatype Reordered<T> = Reordered(newLists: seq<T>, listToMove: T, before: Option<Id>, after: Option<Id>)

  /** `newLists.splice(i, 1)` on the array `a`: the elements after `i` move down one slot and
      the removed element is returned; the last slot is left as it was (the array's length is
      fixed here, where the source's shrinks by one). */
  method SpliceOut<T>(a: array<T>, i: nat) returns (x: T)
    requires i < a.Length
    modifies a
    ensures x == old(a[i])
    ensures a[..a.Length - 1] == RemoveAt(old(a[..]), i)
  {
    x := a[i];
    var k := i;
    while k < a.Length - 1
      invariant i <= k <= a.Length - 1
      invariant forall m :: 0 <= m < i ==> a[m] == old(a[m])
      invariant forall m :: i <= m < k ==> a[m] == old(a[m + 1])
      invariant forall m :: k <= m < a.Length ==> a[m] == old(a[m])
    {
      a[k] := a[k + 1];
      k := k + 1;
    }
  }

  /** `newLists.splice(j, 0, x)` on the first `a.Length - 1` elements of `a`: the elements
      from `j` on move up one slot and `x` takes slot `j`. */
  method SpliceIn<T>(a: array<T>, j: nat, x: T)
    requires j < a.Length
    modifies a
    ensures a[..] == InsertAt(old(a[..a.Length - 1]), j, x)
  {
    var k := a.Length - 1;
    while k > j
      invariant j <= k <= a.Length - 1
      invariant forall m :: 0 <= m <= k ==> a[m] == old(a[m])
      invariant forall m :: k < m < a.Length ==> a[m] == old(a[m - 1])
    {
      a[k] := a[k - 1];
      k := k - 1;
    }
    a[j] := x;
  }

  /** `reorderLists`: both indices must lie in `[0, length)`; the lists are copied with
      `Array.from`, the copy is spliced twice, and the neighbours of the new place are read
      off the result. The caller's array is not touched. */
  method ReorderLists<T>(lists: seq<T>, sourceIndex: int, destinationIndex: int, idOf: T -> Id)
    returns (r: Result<Reordered<T>, string>)
    ensures r.Failure? <==> !(0 <= sourceIndex < |lists| && 0 <= destinationIndex < |lists|)
    ensures r.Failure? ==> r.error == "Invalid source or destination index"
    ensures r.Success? ==>
      && r.value.newLists == Moved(lists, sourceIndex, destinationIndex)
      && r.value.listToMove == lists[sourceIndex]
      && r.value.before == (if destinationIndex == 0 then None
                            else Some(idOf(r.value.newLists[destinationIndex - 1])))
      && r.value.after == (if destinationIndex == |lists| - 1 then None
                           else Some(idOf(r.value.newLists[destinationIndex + 1])))
  {
    if sourceIndex < 0 || sourceIndex >= |lists| || destinationIndex < 0 || destinationIndex >= |lists| {
      return Failure("Invalid source or destination index");
    }
    var copy := new T[|lists|](k requires 0 <= k < |lists| => lists[k]);
    assert copy[..] == lists;
    var listToMove := SpliceOut(copy, sourceIndex);
    SpliceIn(copy, destinationIndex, listToMove);
    var newLists := copy[..];
    var before := if destinationIndex > 0 then Some(idOf(newLists[destinationIndex - 1])) else None;
    var after := if destinationIndex + 1 < |newLists| then Some(idOf(newLists[destinationIndex + 1])) else None;
    return Success(Reordered(newLists, listToMove, before, after));
  }

  /** `reorderCards`: the dragged card looked up in the normalised cards by its id, or
      "Card not found". The droppable ids and indices it is also passed are not used. */
  function ReorderCards(cards: seq<Card>, draggableId: Id): (r: Result<Card, string>)
    ensures r.Success? ==> r.value in cards && r.value.id == draggableId
    ensures r.Failure? <==> forall k :: 0 <= k < |cards| ==> cards[k].id != draggableId
    ensures r.Failure? ==> r.error == "Card not found"
  {
    match Find(cards, (c: Card) => c.id == draggableId)
    case None => Failure("Card not found")
    case Some(card) => Success(card)
  }
}
