/** The array operations the source builds on (`filter`, `findIndex`, a stable `sort`),
    over sequences, with the facts about them that the rest of the model uses. */
module Seqs {
  import opened Wrappers

  /** `Array.prototype.filter`: the elements satisfying `p`, in their original order. */
  function Filter<T>(s: seq<T>, p: T -> bool): (r: seq<T>)
    ensures |r| <= |s|
    ensures forall i :: 0 <= i < |r| ==> p(r[i])
  {
    if s == [] then [] else (if p(s[0]) then [s[0]] else []) + Filter(s[1..], p)
  }

  /** Filtering keeps exactly the elements satisfying `p`: everything it returns comes from
      `s`, and everything in `s` satisfying `p` is returned. */
  lemma {:induction false} FilterMembers<T>(s: seq<T>, p: T -> bool)
    ensures forall i :: 0 <= i < |Filter(s, p)| ==> Filter(s, p)[i] in s
    ensures forall i :: 0 <= i < |s| && p(s[i]) ==> s[i] in Filter(s, p)
  {
    if s != [] {
      FilterMembers(s[1..], p);
      var r := Filter(s, p);
      var head := if p(s[0]) then [s[0]] else [];
      assert r == head + Filter(s[1..], p);
      forall i | 0 <= i < |r| ensures r[i] in s {
        if i >= |head| {
          assert r[i] == Filter(s[1..], p)[i - |head|];
        }
      }
      forall i | 0 <= i < |s| && p(s[i]) ensures s[i] in r {
        if i > 0 {
          assert s[i] == s[1..][i - 1];
        }
      }
    }
  }

  /** A filter that rejects some element of `s` returns a shorter sequence. */
  lemma {:induction false} FilterDropsSome<T>(s: seq<T>, i: nat, p: T -> bool)
    requires i < |s| && !p(s[i])
    ensures |Filter(s, p)| < |s|
  {
    if i > 0 {
      FilterDropsSome(s[1..], i - 1, p);
    }
  }

  /** Filtering distributes over concatenation: what survives keeps its relative order. */
  lemma {:induction false} FilterConcat<T>(a: seq<T>, b: seq<T>, p: T -> bool)
    ensures Filter(a + b, p) == Filter(a, p) + Filter(b, p)
  {
    if a == [] {
      assert a + b == b;
    } else {
      assert (a + b)[0] == a[0];
      assert (a + b)[1..] == a[1..] + b;
      FilterConcat(a[1..], b, p);
    }
  }

  /** Filters by predicates that agree on every element are the same. */
  lemma {:induction false} FilterAgree<T>(s: seq<T>, p: T -> bool, q: T -> bool)
    requires forall i :: 0 <= i < |s| ==> p(s[i]) == q(s[i])
    ensures Filter(s, p) == Filter(s, q)
  {
    if s != [] {
      FilterAgree(s[1..], p, q);
    }
  }

  /** Away from the one element with `x`'s id, the group and the others agree. */
  lemma GroupAgreesAway<T, I>(s: seq<T>, i: nat, x: T, group: T -> bool, others: T -> bool,
                              idOf: T -> I)
    requires i < |s| && idOf(x) == idOf(s[i])
    requires forall a, b :: 0 <= a < b < |s| ==> idOf(s[a]) != idOf(s[b])
    requires forall y :: others(y) == (group(y) && idOf(y) != idOf(x))
    ensures Filter(s[..i], group) == Filter(s[..i], others)
    ensures Filter(s[i + 1..], group) == Filter(s[i + 1..], others)
  {
    var a, b := s[..i], s[i + 1..];
    forall k | 0 <= k < |a| ensures group(a[k]) == others(a[k]) {
      assert k < i < |s| && a[k] == s[k];
      assert idOf(s[k]) != idOf(s[i]);
    }
    FilterAgree(a, group, others);
    forall k | 0 <= k < |b| ensures group(b[k]) == others(b[k]) {
      var j := i + 1 + k;
      assert i < j < |s| && b[k] == s[j];
      assert idOf(s[i]) != idOf(s[j]);
    }
    FilterAgree(b, group, others);
  }

  /** Replacing an element the filter rejects by another one it rejects leaves the filter as
      it was. */
  lemma FilterReplaceRejected<T>(s: seq<T>, i: nat, x: T, p: T -> bool)
    requires i < |s| && !p(s[i]) && !p(x)
    ensures Filter(s[i := x], p) == Filter(s, p)
  {
    SplitAt(s, i, x);
    FilterAround(s[..i], s[i], s[i + 1..], p);
    FilterAround(s[..i], x, s[i + 1..], p);
  }

  /** Writing back what is already there changes nothing; writing twice keeps the second. */
  lemma UpdateSame<T>(s: seq<T>, i: nat, x: T, y: T)
    requires i < |s|
    ensures s[i := s[i]] == s
    ensures s[i := x][i := y] == s[i := y]
  {
  }

  lemma SplitAt<T>(s: seq<T>, i: nat, x: T)
    requires i < |s|
    ensures s == (s[..i] + [s[i]]) + s[i + 1..]
    ensures s[i := x] == (s[..i] + [x]) + s[i + 1..]
  {
  }

  lemma FilterSingle<T>(x: T, p: T -> bool)
    ensures Filter([x], p) == if p(x) then [x] else []
  {
    assert [x][1..] == [];
  }

  /** A filter that no element passes returns nothing. */
  lemma FilterNone<T>(s: seq<T>, p: T -> bool)
    requires forall i :: 0 <= i < |s| ==> !p(s[i])
    ensures Filter(s, p) == []
  {
    FilterMembers(s, p);
  }

  /** Filtering `a + [x] + b` when `x` passes. */
  lemma FilterAround<T>(a: seq<T>, x: T, b: seq<T>, p: T -> bool)
    ensures Filter((a + [x]) + b, p) == Filter(a, p) + (if p(x) then [x] else []) + Filter(b, p)
  {
    FilterConcat(a + [x], b, p);
    FilterConcat(a, [x], p);
    assert Filter([x], p) == if p(x) then [x] else [];
  }

  /** Replacing the element at `i` (the only one with its id) by `x` in a group: the group
      afterwards holds what the group held apart from that id, plus `x`. */
  lemma FilterReplace<T, I>(s: seq<T>, i: nat, x: T, group: T -> bool, others: T -> bool,
                            idOf: T -> I)
    requires i < |s| && idOf(x) == idOf(s[i]) && group(x)
    requires forall a, b :: 0 <= a < b < |s| ==> idOf(s[a]) != idOf(s[b])
    requires forall y :: others(y) == (group(y) && idOf(y) != idOf(x))
    ensures multiset(Filter(s[i := x], group)) == multiset(Filter(s, others) + [x])
  {
    GroupAgreesAway(s, i, x, group, others, idOf);
    assert !others(s[i]);
    FilterReplaceAgreeing(s, i, x, group, others);
  }

  /** `FilterReplace` once the group and the others are known to agree away from `i`. */
  lemma FilterReplaceAgreeing<T>(s: seq<T>, i: nat, x: T, group: T -> bool, others: T -> bool)
    requires i < |s| && group(x) && !others(s[i])
    requires Filter(s[..i], group) == Filter(s[..i], others)
    requires Filter(s[i + 1..], group) == Filter(s[i + 1..], others)
    ensures multiset(Filter(s[i := x], group)) == multiset(Filter(s, others) + [x])
  {
    FilterDrop(s, i, others);
    FilterPut(s, i, x, group);
    MoveToEnd(Filter(s[..i], others), x, Filter(s[i + 1..], others));
  }

  lemma MoveToEnd<T>(a: seq<T>, x: T, b: seq<T>)
    ensures multiset(a + [x] + b) == multiset(a + b + [x])
  {
  }

  /** Filtering cut around index `i`. */
  lemma {:induction false} FilterAt<T>(s: seq<T>, i: nat, p: T -> bool)
    requires i < |s|
    ensures Filter(s, p) == Filter(s[..i], p) + (if p(s[i]) then [s[i]] else []) + Filter(s[i + 1..], p)
  {
    if i == 0 {
      assert s[..0] == [] && s[1..] == s[i + 1..];
    } else {
      var h := if p(s[0]) then [s[0]] else [];
      var m := if p(s[i]) then [s[i]] else [];
      var L, R := s[..i], s[i + 1..];
      FilterAt(s[1..], i - 1, p);
      assert s[1..][..i - 1] == L[1..] && s[1..][i - 1] == s[i] && s[1..][i..] == R;
      assert Filter(s[1..], p) == Filter(L[1..], p) + m + Filter(R, p);
      assert L[0] == s[0];
      assert Filter(L, p) == h + Filter(L[1..], p);
      ConcatAssoc(h, Filter(L[1..], p), m, Filter(R, p));
    }
  }

  /** Filtering drops a rejected element in the middle. */
  lemma FilterDrop<T>(s: seq<T>, i: nat, p: T -> bool)
    requires i < |s| && !p(s[i])
    ensures Filter(s, p) == Filter(s[..i], p) + Filter(s[i + 1..], p)
  {
    FilterAt(s, i, p);
    assert Filter(s[..i], p) + [] == Filter(s[..i], p);
  }

  /** Filtering keeps an accepted element written in the middle. */
  lemma FilterPut<T>(s: seq<T>, i: nat, x: T, p: T -> bool)
    requires i < |s| && p(x)
    ensures Filter(s[i := x], p) == Filter(s[..i], p) + [x] + Filter(s[i + 1..], p)
  {
    var t := s[i := x];
    assert t[..i] == s[..i] && t[i + 1..] == s[i + 1..] && t[i] == x;
    FilterAt(t, i, p);
  }

  lemma ConcatAssoc<T>(a: seq<T>, b: seq<T>, c: seq<T>, d: seq<T>)
    ensures a + (b + c + d) == (a + b) + c + d
  {
  }

  /** Filtering keeps every element satisfying `p` with its multiplicity and drops the others. */
  lemma {:induction false} FilterMultiset<T>(s: seq<T>, p: T -> bool)
    ensures forall x :: multiset(Filter(s, p))[x] == if p(x) then multiset(s)[x] else 0
  {
    if s != [] {
      FilterMultiset(s[1..], p);
      assert s == [s[0]] + s[1..];
      assert multiset(s) == multiset{s[0]} + multiset(s[1..]);
    }
  }

  /** A filter that every element passes changes nothing. */
  lemma {:induction false} FilterKeepsAll<T>(s: seq<T>, p: T -> bool)
    requires forall i :: 0 <= i < |s| ==> p(s[i])
    ensures Filter(s, p) == s
  {
    if s != [] {
      FilterKeepsAll(s[1..], p);
    }
  }

  /** `Array.prototype.map`. */
  function Map<A, B>(s: seq<A>, f: A -> B): (r: seq<B>)
    ensures |r| == |s|
    ensures forall i :: 0 <= i < |s| ==> r[i] == f(s[i])
  {
    seq(|s|, i requires 0 <= i < |s| => f(s[i]))
  }

  /** `Array.prototype.findIndex`: the index of the first element satisfying `p`, if any. */
  function FindIndex<T>(s: seq<T>, p: T -> bool): (r: Option<nat>)
    ensures r.Some? ==> r.value < |s| && p(s[r.value])
    ensures r.Some? ==> forall j :: 0 <= j < r.value ==> !p(s[j])
    ensures r.None? <==> forall j :: 0 <= j < |s| ==> !p(s[j])
  {
    if s == [] then None
    else if p(s[0]) then Some(0)
    else match FindIndex(s[1..], p)
      case None => None
      case Some(i) => Some(i + 1)
  }

  /** `Array.prototype.find`: the first element satisfying `p`, if any. */
  function Find<T>(s: seq<T>, p: T -> bool): (r: Option<T>)
    ensures r.Some? ==> r.value in s && p(r.value)
    ensures r.None? <==> forall j :: 0 <= j < |s| ==> !p(s[j])
  {
    match FindIndex(s, p)
    case None => None
    case Some(i) => Some(s[i])
  }

  /** `le(a, b)`: `a` may stay in front of `b`. A comparator of `Array.prototype.sort` that
      answers "not after" describes a total preorder. */
  ghost predicate TotalPreorder<T(!new)>(le: (T, T) -> bool) {
    && (forall a, b :: le(a, b) || le(b, a))
    && (forall a, b, c :: le(a, b) && le(b, c) ==> le(a, c))
  }

  ghost predicate SortedBy<T>(s: seq<T>, le: (T, T) -> bool) {
    forall i, j :: 0 <= i < j < |s| ==> le(s[i], s[j])
  }

  /** Puts `x` in front of the first element it may stay in front of. */
  function Insert<T>(x: T, s: seq<T>, le: (T, T) -> bool): (r: seq<T>)
    ensures |r| == |s| + 1
  {
    if s == [] || le(x, s[0]) then [x] + s else [s[0]] + Insert(x, s[1..], le)
  }

  /** The stable sort of `Array.prototype.sort` (required to be stable since ES2019):
      elements the comparator calls equal keep their input order. */
  function SortWith<T>(s: seq<T>, le: (T, T) -> bool): (r: seq<T>)
    ensures |r| == |s|
  {
    if s == [] then [] else Insert(s[0], SortWith(s[1..], le), le)
  }

  lemma {:induction false} InsertMultiset<T>(x: T, s: seq<T>, le: (T, T) -> bool)
    ensures multiset(Insert(x, s, le)) == multiset{x} + multiset(s)
  {
    if s != [] && !le(x, s[0]) {
      InsertMultiset(x, s[1..], le);
      assert s == [s[0]] + s[1..];
    }
  }

  /** Sorting only reorders: the result is a permutation of the input. */
  lemma {:induction false} SortWithPermutation<T>(s: seq<T>, le: (T, T) -> bool)
    ensures multiset(SortWith(s, le)) == multiset(s)
  {
    if s != [] {
      SortWithPermutation(s[1..], le);
      InsertMultiset(s[0], SortWith(s[1..], le), le);
      assert s == [s[0]] + s[1..];
    }
  }

  lemma SortWithMembers<T>(s: seq<T>, le: (T, T) -> bool)
    ensures forall x :: x in SortWith(s, le) <==> x in s
  {
    SortWithPermutation(s, le);
    forall x ensures x in SortWith(s, le) <==> x in s {
      assert x in SortWith(s, le) <==> x in multiset(SortWith(s, le));
      assert x in s <==> x in multiset(s);
    }
  }

  lemma {:induction false} InsertSorted<T(!new)>(x: T, s: seq<T>, le: (T, T) -> bool)
    requires TotalPreorder(le)
    requires SortedBy(s, le)
    ensures SortedBy(Insert(x, s, le), le)
  {
    if s != [] && !le(x, s[0]) {
      InsertSorted(x, s[1..], le);
      var t := Insert(x, s[1..], le);
      InsertMultiset(x, s[1..], le);
      forall j | 0 <= j < |t| ensures le(s[0], t[j]) {
        assert t[j] in multiset(t);
        assert t[j] == x || t[j] in s[1..];
      }
    }
  }

  /** With a comparator that is a total preorder the result is in ascending order. */
  lemma {:induction false} SortWithSorted<T(!new)>(s: seq<T>, le: (T, T) -> bool)
    requires TotalPreorder(le)
    ensures SortedBy(SortWith(s, le), le)
  {
    if s != [] {
      SortWithSorted(s[1..], le);
      InsertSorted(s[0], SortWith(s[1..], le), le);
    }
  }

  /** Sorting what is already in order returns it unchanged; so sorting twice is sorting once. */
  lemma {:induction false} SortWithOfSorted<T>(s: seq<T>, le: (T, T) -> bool)
    requires SortedBy(s, le)
    ensures SortWith(s, le) == s
  {
    if s != [] {
      SortWithOfSorted(s[1..], le);
      assert SortWith(s[1..], le) == s[1..];
      assert s == [s[0]] + s[1..];
    }
  }

  /** The elements the comparator ranks level with `z` (each no greater than the other). */
  function Ties<T>(le: (T, T) -> bool, z: T): T -> bool {
    (y: T) => le(y, z) && le(z, y)
  }

  /** Inserting `x` puts it in front of every element level with it, so it keeps its place
      among its ties. */
  lemma {:induction false} InsertStable<T(!new)>(x: T, s: seq<T>, le: (T, T) -> bool, z: T)
    requires TotalPreorder(le)
    ensures Filter(Insert(x, s, le), Ties(le, z)) == Filter([x], Ties(le, z)) + Filter(s, Ties(le, z))
  {
    var p := Ties(le, z);
    if s == [] || le(x, s[0]) {
      FilterConcat([x], s, p);
    } else {
      InsertStable(x, s[1..], le, z);
      FilterConcat([s[0]], Insert(x, s[1..], le), p);
      FilterConcat([s[0]], s[1..], p);
      assert s == [s[0]] + s[1..];
      assert !(p(x) && p(s[0]));
      FilterSingle(x, p);
      FilterSingle(s[0], p);
    }
  }

  /** Stability: elements the comparator ranks level keep their input order. */
  lemma {:induction false} SortWithStable<T(!new)>(s: seq<T>, le: (T, T) -> bool, z: T)
    requires TotalPreorder(le)
    ensures Filter(SortWith(s, le), Ties(le, z)) == Filter(s, Ties(le, z))
  {
    if s != [] {
      SortWithStable(s[1..], le, z);
      InsertStable(s[0], SortWith(s[1..], le), le, z);
      FilterConcat([s[0]], s[1..], Ties(le, z));
      assert s == [s[0]] + s[1..];
    }
  }
}
