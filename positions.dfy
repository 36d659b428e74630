/** Fractional-index positions: lists on a board and cards in a list are ordered by opaque
    string keys compared with JavaScript's `<`, and a new key is always generated strictly
    between two neighbours. This module holds the key order, the contract of the key
    generator, `sortByPosition`, `calculateNewPosition` and `generateInitialPositions`. */
module Positions {
  import opened Wrappers
  import opened Seqs

  type Key = string

  /** JavaScript `<` on strings: lexicographic over characters, a proper prefix first. Dafny
      characters are code points; on the ASCII keys of this model that is JavaScript's
      code-unit order. */
  predicate Less(a: Key, b: Key) {
    if a == [] then b != []
    else if b == [] then false
    else if a[0] == b[0] then Less(a[1..], b[1..])
    else a[0] < b[0]
  }

  lemma {:induction false} LessIrreflexive(a: Key)
    ensures !Less(a, a)
  {
    if a != [] {
      LessIrreflexive(a[1..]);
    }
  }

  lemma {:induction false} LessAsymmetric(a: Key, b: Key)
    requires Less(a, b)
    ensures !Less(b, a)
  {
    if a != [] && b != [] && a[0] == b[0] {
      LessAsymmetric(a[1..], b[1..]);
    }
  }

  lemma {:induction false} LessTransitive(a: Key, b: Key, c: Key)
    requires Less(a, b) && Less(b, c)
    ensures Less(a, c)
  {
    if a != [] && a[0] == b[0] && b[0] == c[0] {
      LessTransitive(a[1..], b[1..], c[1..]);
    }
  }

  /** Two different keys are always ordered one way or the other. */
  lemma {:induction false} LessTotal(a: Key, b: Key)
    requires a != b
    ensures Less(a, b) || Less(b, a)
  {
    if a != [] && b != [] && a[0] == b[0] {
      assert a == [a[0]] + a[1..] && b == [b[0]] + b[1..];
      LessTotal(a[1..], b[1..]);
    }
  }

  /** A key is below every proper extension of itself. */
  lemma {:induction false} LessExtension(a: Key, s: Key)
    requires s != []
    ensures Less(a, a + s)
  {
    if a != [] {
      assert (a + s)[1..] == a[1..] + s;
      LessExtension(a[1..], s);
    }
  }

  /** Keys that agree up to `i` and differ there are ordered by the character at `i`. */
  lemma {:induction false} LessAt(a: Key, b: Key, i: nat)
    requires i < |a| && i < |b| && a[..i] == b[..i] && a[i] < b[i]
    ensures Less(a, b)
  {
    if i > 0 {
      assert a[0] == a[..i][0] == b[..i][0] == b[0];
      assert a[1..][..i - 1] == a[..i][1..] == b[..i][1..] == b[1..][..i - 1];
      LessAt(a[1..], b[1..], i - 1);
    }
  }

  /** If `a < b` and `a` is not a prefix of `b`, the first difference lies inside `a`. */
  lemma {:induction false} LessWitness(a: Key, b: Key) returns (i: nat)
    requires Less(a, b) && !(|a| <= |b| && a == b[..|a|])
    ensures i < |a| && i < |b| && a[..i] == b[..i] && a[i] < b[i]
  {
    if a[0] == b[0] {
      var j := LessWitness(a[1..], b[1..]);
      i := j + 1;
      assert a[..i] == [a[0]] + a[1..][..j];
      assert b[..i] == [b[0]] + b[1..][..j];
    } else {
      i := 0;
    }
  }

  /** A prefix below a key is a proper prefix. */
  lemma LessProperPrefix(a: Key, b: Key)
    requires Less(a, b) && |a| <= |b| && a == b[..|a|]
    ensures |a| < |b|
  {
    if |a| == |b| {
      assert a == b;
      LessIrreflexive(a);
    }
  }

  /** Extending `a` keeps it below `b` when `a` is below `b` without being its prefix. */
  lemma LessStaysBelow(a: Key, b: Key, s: Key)
    requires Less(a, b) && !(|a| <= |b| && a == b[..|a|])
    ensures Less(a + s, b)
  {
    var i := LessWitness(a, b);
    assert (a + s)[..i] == a[..i];
    LessAt(a + s, b, i);
  }

  /** Comparing two keys that share a prefix compares what follows it. */
  lemma {:induction false} LessCommonPrefix(p: Key, a: Key, b: Key)
    requires Less(a, b)
    ensures Less(p + a, p + b)
  {
    if p == [] {
      assert p + a == a && p + b == b;
    } else {
      assert (p + a)[0] == p[0] == (p + b)[0];
      assert (p + a)[1..] == p[1..] + a && (p + b)[1..] == p[1..] + b;
      LessCommonPrefix(p[1..], a, b);
    }
  }

  /** The base-62 digits of the `fractional-indexing` alphabet, in code-point order. */
  predicate IsDigit(c: char) {
    ('0' <= c <= '9') || ('A' <= c <= 'Z') || ('a' <= c <= 'z')
  }

  /** Every character is a base-62 digit. */
  predicate AllDigits(s: Key) {
    s == [] || (IsDigit(s[0]) && AllDigits(s[1..]))
  }

  lemma {:induction false} AllDigitsConcat(x: Key, y: Key)
    requires AllDigits(x) && AllDigits(y)
    ensures AllDigits(x + y)
  {
    if x == [] {
      assert x + y == y;
    } else {
      assert (x + y)[0] == x[0] && (x + y)[1..] == x[1..] + y;
      AllDigitsConcat(x[1..], y);
    }
  }

  lemma {:induction false} AllDigitsSlice(x: Key, i: nat, j: nat)
    requires AllDigits(x) && i <= j <= |x|
    ensures AllDigits(x[i..j])
  {
    if i < j {
      if i == 0 {
        assert x[i..j][1..] == x[1..][0..j - 1];
        AllDigitsSlice(x[1..], 0, j - 1);
      } else {
        assert x[i..j] == x[1..][i - 1..j - 1];
        AllDigitsSlice(x[1..], i - 1, j - 1);
      }
    }
  }

  /** The letters that may start a key: each announces the length of the integer part. */
  predicate IsHead(c: char) {
    ('a' <= c <= 'z') || ('A' <= c <= 'Z')
  }

  /** The length of the integer part a head announces: "a" 2 up to "z" 27, "Z" 2 down to
      "A" 27. */
  function IntegerLength(head: char): (n: nat)
    requires IsHead(head)
    ensures 2 <= n <= 27
    ensures n == 27 <==> head == 'A' || head == 'z'
  {
    if 'a' <= head <= 'z' then head as int - 'a' as int + 2 else 'Z' as int - head as int + 2
  }

  /** The smallest integer, "A" followed by 26 zeros, which is not a key. */
  const SmallestInteger: Key := "A" + ZeroDigits(26)

  /** Every character is the digit "0". */
  predicate AllZeros(s: Key) {
    s == [] || (s[0] == '0' && AllZeros(s[1..]))
  }

  /** `k` is the smallest integer. */
  predicate IsSmallestInteger(k: Key) {
    |k| == 27 && k[0] == 'A' && AllZeros(k[1..])
  }

  /** `n` zero digits. */
  function {:induction false} ZeroDigits(n: nat): (z: Key)
    ensures |z| == n && AllDigits(z)
  {
    if n == 0 then [] else
      var z := ZeroDigits(n - 1);
      assert ("0" + z)[1..] == z;
      "0" + z
  }

  lemma {:induction false} ZeroDigitsAreZeros(n: nat)
    ensures AllZeros(ZeroDigits(n))
  {
    if n > 0 {
      ZeroDigitsAreZeros(n - 1);
      assert ZeroDigits(n)[1..] == ZeroDigits(n - 1);
    }
  }

  /** The keys the generator accepts and produces: a head letter, then base-62 digits, at
      least as many characters as the head's integer length; a fraction after the integer
      part that does not end in "0"; and not the smallest integer. */
  predicate ValidKey(k: Key) {
    && k != []
    && IsHead(k[0])
    && IntegerLength(k[0]) <= |k|
    && AllDigits(k)
    && (|k| > IntegerLength(k[0]) ==> k[|k| - 1] != '0')
    && !IsSmallestInteger(k)
  }

  /** Why `generateKeyBetween` throws. */
  datatype KeyError = InvalidKey | OrderingViolation

  /** The bounds `generateKeyBetween` accepts: every given bound is a valid key, and with
      both given the lower one is strictly below the upper one. */
  predicate BoundsOk(lo: Option<Key>, hi: Option<Key>) {
    && (lo.Some? ==> ValidKey(lo.value))
    && (hi.Some? ==> ValidKey(hi.value))
    && (lo.Some? && hi.Some? ==> Less(lo.value, hi.value))
  }

  /** A fraction strictly below the non-empty digit string `f` that does not end in "0". */
  function {:induction false} FractionBelow(f: Key): (g: Key)
    requires f != [] && AllDigits(f) && f[|f| - 1] != '0'
    ensures g != [] && AllDigits(g) && g[|g| - 1] != '0' && Less(g, f)
    decreases |f|
  {
    if f[0] == '0' then
      var g := FractionBelow(f[1..]);
      assert ("0" + g)[1..] == g;
      "0" + g
    else
      "0V"
  }

  /** Zero digits are not above any digit string of their length. */
  lemma {:induction false} ZerosLeast(n: nat, s: Key)
    requires |s| == n && AllDigits(s)
    ensures !Less(s, ZeroDigits(n))
  {
    if n > 0 {
      var z := ZeroDigits(n);
      assert z[0] == '0' && z[1..] == ZeroDigits(n - 1);
      if s[0] == '0' {
        ZerosLeast(n - 1, s[1..]);
      }
    }
  }

  /** An integer with head "A" other than the smallest is above the smallest. */
  lemma SmallestBelowHeadA(b: Key)
    requires |b| == 27 && b[0] == 'A' && AllDigits(b) && !IsSmallestInteger(b)
    ensures Less(SmallestInteger, b)
  {
    var t := b[1..];
    assert b == "A" + t;
    ZeroDigitsAreZeros(26);
    LessTotal(ZeroDigits(26), t);
    ZerosLeast(26, t);
    LessCommonPrefix("A", ZeroDigits(26), t);
  }

  /** The smallest integer followed by "V" is below every valid key that is an integer. */
  lemma SmallestBelow(b: Key)
    requires ValidKey(b) && |b| == IntegerLength(b[0])
    ensures Less(SmallestInteger + "V", b)
  {
    ZeroDigitsAreZeros(26);
    assert SmallestInteger[1..] == ZeroDigits(26);
    if b[0] == 'A' {
      SmallestBelowHeadA(b);
      assert b[..27] == b != SmallestInteger;
    } else {
      assert SmallestInteger[0] == 'A' < b[0];
      LessAt(SmallestInteger, b, 0);
    }
    LessStaysBelow(SmallestInteger, b, "V");
  }

  /** The smallest integer followed by "V" is a valid key. */
  lemma SmallestAndVValid()
    ensures ValidKey(SmallestInteger + "V")
  {
    var r := SmallestInteger + "V";
    assert AllDigits("A");
    AllDigitsConcat("A", ZeroDigits(26));
    assert AllDigits("V");
    AllDigitsConcat(SmallestInteger, "V");
    assert r[0] == 'A' && |r| == 28;
  }

  /** A valid key cut anywhere after its integer part and followed by a fraction that does
      not end in "0" is a valid key. */
  lemma ExtendValid(b: Key, m: nat, g: Key)
    requires ValidKey(b) && IntegerLength(b[0]) <= m <= |b|
    requires g != [] && AllDigits(g) && g[|g| - 1] != '0'
    ensures ValidKey(b[..m] + g) && (b[..m] + g)[0] == b[0]
  {
    var r := b[..m] + g;
    assert r[0] == b[0];
    AllDigitsSlice(b, 0, m);
    assert b[0..m] == b[..m];
    AllDigitsConcat(b[..m], g);
    assert r[|r| - 1] == g[|g| - 1];
    assert |r| != |SmallestInteger| || r[0] != 'A';
  }

  /** A valid key strictly below the valid key `b`: its integer part followed by a smaller
      fraction, or the smallest integer followed by "V" when `b` is an integer. */
  function KeyBelow(b: Key): (r: Key)
    requires ValidKey(b)
    ensures ValidKey(r) && Less(r, b)
  {
    var n := IntegerLength(b[0]);
    if |b| > n then
      AllDigitsSlice(b, n, |b|);
      assert b[n..|b|] == b[n..];
      var g := FractionBelow(b[n..]);
      assert b == b[..n] + b[n..];
      LessCommonPrefix(b[..n], g, b[n..]);
      ExtendValid(b, n, g);
      b[..n] + g
    else
      SmallestBelow(b);
      SmallestAndVValid();
      SmallestInteger + "V"
  }

  /** A valid key strictly above the valid key `a`: `a` followed by "V". */
  function KeyAbove(a: Key): (r: Key)
    requires ValidKey(a)
    ensures ValidKey(r) && Less(a, r) && r == a + "V"
  {
    LessExtension(a, "V");
    assert a[..|a|] == a;
    ExtendValid(a, |a|, "V");
    a + "V"
  }

  /** The fraction left over when a valid key is a proper prefix of another valid key can
      be undercut: it is non-empty, made of digits and does not end in "0". */
  lemma RestOfExtension(a: Key, b: Key)
    requires ValidKey(a) && ValidKey(b) && |a| < |b| && a == b[..|a|]
    ensures var rest := b[|a|..];
      rest != [] && AllDigits(rest) && rest[|rest| - 1] != '0' && b == a + rest
  {
    assert b[0] == a[0];
    var rest := b[|a|..];
    AllDigitsSlice(b, |a|, |b|);
    assert b[|a|..|b|] == rest;
    assert rest[|rest| - 1] == b[|b| - 1];
  }

  /** A valid key strictly between `a` and a valid key `b` that extends it. */
  function KeyInsideExtension(a: Key, b: Key): (r: Key)
    requires ValidKey(a) && ValidKey(b) && |a| < |b| && a == b[..|a|]
    ensures ValidKey(r) && Less(a, r) && Less(r, b)
  {
    RestOfExtension(a, b);
    var g := FractionBelow(b[|a|..]);
    LessCommonPrefix(a, g, b[|a|..]);
    LessExtension(a, g);
    assert a[..|a|] == a;
    ExtendValid(a, |a|, g);
    a + g
  }

  /** A valid key strictly between the valid keys `a < b`: `a` followed by a fraction below
      the rest of `b` when `a` is a prefix of `b`, and `a` followed by "V" otherwise. */
  function KeyInside(a: Key, b: Key): (r: Key)
    requires ValidKey(a) && ValidKey(b) && Less(a, b)
    ensures ValidKey(r) && Less(a, r) && Less(r, b)
  {
    if |a| <= |b| && a == b[..|a|] then
      LessProperPrefix(a, b);
      KeyInsideExtension(a, b)
    else
      LessStaysBelow(a, b, "V");
      KeyAbove(a)
  }

  /** `generateKeyBetween(lo, hi)` of the `fractional-indexing` package, `None` standing for
      `null` (unbounded). Only its contract matters to the rest of the model: it succeeds
      exactly on acceptable bounds, and then returns a valid key strictly between them. The
      body is one key meeting that contract ("a0" without bounds, as the package returns),
      not the package's own encoding. */
  function GenerateKeyBetween(lo: Option<Key>, hi: Option<Key>): (r: Result<Key, KeyError>)
    ensures r.Success? <==> BoundsOk(lo, hi)
    ensures r.Failure? ==> (r.error == OrderingViolation <==>
      (lo.Some? && hi.Some? && ValidKey(lo.value) && ValidKey(hi.value)))
    ensures r.Success? ==> ValidKey(r.value)
    ensures r.Success? && lo.Some? ==> Less(lo.value, r.value)
    ensures r.Success? && hi.Some? ==> Less(r.value, hi.value)
  {
    if (lo.Some? && !ValidKey(lo.value)) || (hi.Some? && !ValidKey(hi.value)) then
      Failure(InvalidKey)
    else if lo.Some? && hi.Some? && !Less(lo.value, hi.value) then
      Failure(OrderingViolation)
    else match (lo, hi)
      case (None, None) => Success("a0")
      case (None, Some(b)) => Success(KeyBelow(b))
      case (Some(a), None) => Success(KeyAbove(a))
      case (Some(a), Some(b)) => Success(KeyInside(a, b))
  }

  /** Keys as the package sees them: "a0", the first key it generates, is valid and has
      room on both sides; "b" and "z" are shorter than their heads announce; "a10" ends its
      fraction in "0". */
  lemma KeyExamples()
    ensures GenerateKeyBetween(None, None) == Success("a0")
    ensures ValidKey("a0") && ValidKey("a1") && ValidKey("Zz")
    ensures !ValidKey("b") && !ValidKey("z") && !ValidKey("a10")
    ensures GenerateKeyBetween(None, Some("a0")).Success?
    ensures GenerateKeyBetween(Some("a0"), None).Success?
  {
    assert AllDigits("0") && AllDigits("a0") && AllDigits("1") && AllDigits("a1");
    assert AllDigits("z") && AllDigits("Zz");
  }

  /** `generatePositionAtStart`: a key before `first`. */
  function PositionAtStart(first: Key): (r: Result<Key, KeyError>)
    ensures ValidKey(first) <==> r.Success?
    ensures r.Success? ==> ValidKey(r.value) && Less(r.value, first)
  {
    GenerateKeyBetween(None, Some(first))
  }

  /** `generatePositionAtEnd`: a key after `last`. */
  function PositionAtEnd(last: Key): (r: Result<Key, KeyError>)
    ensures ValidKey(last) <==> r.Success?
    ensures r.Success? ==> ValidKey(r.value) && Less(last, r.value)
  {
    GenerateKeyBetween(Some(last), None)
  }

  /** `generatePositionBetween`: a key strictly between `before` and `after`. */
  function PositionBetween(before: Key, after: Key): (r: Result<Key, KeyError>)
    ensures (ValidKey(before) && ValidKey(after) && Less(before, after)) <==> r.Success?
    ensures r.Success? ==> ValidKey(r.value) && Less(before, r.value) && Less(r.value, after)
  {
    GenerateKeyBetween(Some(before), Some(after))
  }

  /** The comparator of `sortByPosition`: `a` may stay before `b` unless `b`'s key is smaller. */
  function PositionLe<T>(pos: T -> Key): (T, T) -> bool {
    (a: T, b: T) => !Less(pos(b), pos(a))
  }

  lemma PositionLeIsTotalPreorder<T(!new)>(pos: T -> Key)
    ensures TotalPreorder(PositionLe(pos))
  {
    var le := PositionLe(pos);
    forall a: T, b: T ensures le(a, b) || le(b, a) {
      if Less(pos(b), pos(a)) {
        LessAsymmetric(pos(b), pos(a));
      }
    }
    forall a: T, b: T, c: T | le(a, b) && le(b, c) ensures le(a, c) {
      if Less(pos(c), pos(a)) {
        if pos(b) == pos(a) {
        } else {
          LessTotal(pos(a), pos(b));
          LessTransitive(pos(c), pos(a), pos(b));
        }
      }
    }
  }

  /** `sortByPosition`: a stably sorted copy of `items`, ascending by position key. */
  function SortByPosition<T>(items: seq<T>, pos: T -> Key): (r: seq<T>)
    ensures |r| == |items|
  {
    SortWith(items, PositionLe(pos))
  }

  /** The sorted copy is a permutation of the input, ascending by key (no key after a
      smaller one), and sorting it again changes nothing. */
  lemma SortByPositionSorted<T(!new)>(items: seq<T>, pos: T -> Key)
    ensures multiset(SortByPosition(items, pos)) == multiset(items)
    ensures forall i, j :: 0 <= i < j < |items| ==>
      !Less(pos(SortByPosition(items, pos)[j]), pos(SortByPosition(items, pos)[i]))
    ensures SortByPosition(SortByPosition(items, pos), pos) == SortByPosition(items, pos)
  {
    PositionLeIsTotalPreorder(pos);
    SortWithPermutation(items, PositionLe(pos));
    SortWithSorted(items, PositionLe(pos));
    SortWithOfSorted(SortByPosition(items, pos), PositionLe(pos));
  }

  /** The items whose position key is `k`. */
  function HasKey<T>(pos: T -> Key, k: Key): T -> bool {
    (y: T) => pos(y) == k
  }

  /** The sort is stable: items sharing a position key keep their input order. */
  lemma SortByPositionStable<T(!new)>(items: seq<T>, pos: T -> Key, k: Key)
    ensures Filter(SortByPosition(items, pos), HasKey(pos, k)) == Filter(items, HasKey(pos, k))
  {
    var le := PositionLe(pos);
    PositionLeIsTotalPreorder(pos);
    var sorted := SortByPosition(items, pos);
    SortWithMembers(items, le);
    if z :| z in items && pos(z) == k {
      SortWithStable(items, le, z);
      forall y: T ensures Ties(le, z)(y) == HasKey(pos, k)(y) {
        if pos(y) != pos(z) {
          LessTotal(pos(y), pos(z));
        }
      }
      FilterAgree(items, Ties(le, z), HasKey(pos, k));
      FilterAgree(sorted, Ties(le, z), HasKey(pos, k));
    } else {
      FilterNone(items, HasKey(pos, k));
      FilterNone(sorted, HasKey(pos, k));
    }
  }

  /** In key order: no key after a smaller one (ties allowed). */
  ghost predicate InKeyOrder<T>(s: seq<T>, pos: T -> Key) {
    forall i, j :: 0 <= i < j < |s| ==> !Less(pos(s[j]), pos(s[i]))
  }

  /** No two items share a position key. */
  ghost predicate KeysDistinct<T>(s: seq<T>, pos: T -> Key) {
    forall i, j :: 0 <= i < |s| && 0 <= j < |s| && i != j ==> pos(s[i]) != pos(s[j])
  }

  /** Strictly ascending by key. */
  ghost predicate Ascending<T>(s: seq<T>, pos: T -> Key) {
    forall i, j :: 0 <= i < j < |s| ==> Less(pos(s[i]), pos(s[j]))
  }

  lemma {:induction false} InsertAscending<T>(x: T, s: seq<T>, pos: T -> Key)
    requires Ascending(s, pos)
    requires forall i :: 0 <= i < |s| ==> pos(s[i]) != pos(x)
    ensures Ascending(Insert(x, s, PositionLe(pos)), pos)
    ensures multiset(Insert(x, s, PositionLe(pos))) == multiset{x} + multiset(s)
  {
    InsertMultiset(x, s, PositionLe(pos));
    var r := Insert(x, s, PositionLe(pos));
    if s == [] {
    } else if PositionLe(pos)(x, s[0]) {
      LessTotal(pos(x), pos(s[0]));
      forall j | 1 <= j < |r| ensures Less(pos(x), pos(r[j])) {
        if j > 1 {
          LessTransitive(pos(x), pos(s[0]), pos(r[j]));
        }
      }
    } else {
      InsertAscending(x, s[1..], pos);
      var t := Insert(x, s[1..], PositionLe(pos));
      InsertMultiset(x, s[1..], PositionLe(pos));
      forall j | 0 <= j < |t| ensures Less(pos(s[0]), pos(t[j])) {
        assert t[j] in multiset(t);
        if t[j] != x {
          assert t[j] in multiset(s[1..]);
          var k :| 0 <= k < |s[1..]| && s[1..][k] == t[j];
          assert s[k + 1] == t[j];
        }
      }
    }
  }

  /** With distinct keys the sorted copy is strictly ascending. */
  lemma {:induction false} SortByPositionAscending<T>(items: seq<T>, pos: T -> Key)
    requires KeysDistinct(items, pos)
    ensures Ascending(SortByPosition(items, pos), pos)
  {
    if items != [] {
      var rest := items[1..];
      assert KeysDistinct(rest, pos) by {
        forall i, j | 0 <= i < |rest| && 0 <= j < |rest| && i != j
          ensures pos(rest[i]) != pos(rest[j])
        {
          assert rest[i] == items[i + 1] && rest[j] == items[j + 1];
        }
      }
      SortByPositionAscending(rest, pos);
      var sorted := SortByPosition(rest, pos);
      SortWithPermutation(rest, PositionLe(pos));
      forall i | 0 <= i < |sorted| ensures pos(sorted[i]) != pos(items[0]) {
        assert sorted[i] in multiset(rest);
        var k :| 0 <= k < |rest| && rest[k] == sorted[i];
        assert items[k + 1] == sorted[i];
      }
      InsertAscending(items[0], sorted, pos);
    }
  }

  /** A strictly ascending arrangement of a collection is unique. */
  lemma AscendingTail<T>(a: seq<T>, pos: T -> Key)
    requires Ascending(a, pos) && a != []
    ensures Ascending(a[1..], pos)
  {
    var t := a[1..];
    forall i, j | 0 <= i < j < |t| ensures Less(pos(t[i]), pos(t[j])) {
      assert t[i] == a[i + 1] && t[j] == a[j + 1];
    }
  }

  /** Two strictly ascending arrangements of one collection start with the same element. */
  lemma AscendingSameHead<T>(a: seq<T>, b: seq<T>, pos: T -> Key)
    requires Ascending(a, pos) && Ascending(b, pos)
    requires multiset(a) == multiset(b) && a != []
    ensures b != [] && a[0] == b[0]
  {
    assert a[0] in multiset(b);
    var k :| 0 <= k < |b| && b[k] == a[0];
    assert b[0] in multiset(a);
    var m :| 0 <= m < |a| && a[m] == b[0];
    if k > 0 && m > 0 {
      assert Less(pos(b[0]), pos(a[0])) && Less(pos(a[0]), pos(b[0]));
      LessAsymmetric(pos(b[0]), pos(a[0]));
      assert false;
    }
  }

  /** A strictly ascending arrangement of a collection is unique. */
  lemma {:induction false} AscendingUnique<T>(a: seq<T>, b: seq<T>, pos: T -> Key)
    requires Ascending(a, pos) && Ascending(b, pos)
    requires multiset(a) == multiset(b)
    ensures a == b
  {
    if a == [] {
      assert |b| == |multiset(b)| == 0;
    } else {
      AscendingSameHead(a, b, pos);
      AscendingTail(a, pos);
      AscendingTail(b, pos);
      assert a == [a[0]] + a[1..] && b == [b[0]] + b[1..];
      assert multiset(a[1..]) == multiset(a) - multiset{a[0]};
      assert multiset(b[1..]) == multiset(b) - multiset{b[0]};
      AscendingUnique(a[1..], b[1..], pos);
    }
  }

  /** What is already strictly ascending sorts to itself. */
  lemma AscendingSortsToItself<T>(s: seq<T>, pos: T -> Key)
    requires Ascending(s, pos)
    ensures SortByPosition(s, pos) == s
  {
    forall i, j | 0 <= i < j < |s| ensures PositionLe(pos)(s[i], s[j]) {
      LessAsymmetric(pos(s[i]), pos(s[j]));
    }
    SortWithOfSorted(s, PositionLe(pos));
  }

  /** In a sequence without repetitions every element occurs once. */
  lemma {:induction false} OccursOnce<T>(s: seq<T>, i: nat)
    requires i < |s| && forall a, b :: 0 <= a < b < |s| ==> s[a] != s[b]
    ensures multiset(s)[s[i]] == 1
  {
    assert s == [s[0]] + s[1..];
    var rest := s[1..];
    if i == 0 {
      forall k | 0 <= k < |rest| ensures rest[k] != s[0] {
        assert rest[k] == s[k + 1];
      }
      assert s[0] !in multiset(rest);
    } else {
      forall a, b | 0 <= a < b < |rest| ensures rest[a] != rest[b] {
        assert rest[a] == s[a + 1] && rest[b] == s[b + 1];
      }
      OccursOnce(rest, i - 1);
      assert rest[i - 1] == s[i];
    }
  }

  /** Strictly ascending valid keys are well keyed. */
  lemma AscendingWellKeyed<T>(s: seq<T>, pos: T -> Key)
    requires Ascending(s, pos)
    requires forall j :: 0 <= j < |s| ==> ValidKey(pos(s[j]))
    ensures WellKeyed(s, pos)
  {
    forall a, b | 0 <= a < b < |s| ensures s[a] != s[b] {
      LessIrreflexive(pos(s[a]));
    }
    forall k | 0 <= k < |s| ensures multiset(s)[s[k]] == 1 {
      OccursOnce(s, k);
    }
    forall a, b | 0 <= a < |s| && 0 <= b < |s| && s[a] != s[b] ensures pos(s[a]) != pos(s[b]) {
      if a < b {
        LessIrreflexive(pos(s[a]));
      } else if b < a {
        LessIrreflexive(pos(s[b]));
      }
    }
  }

  /** A key above every element of the sorted arrangement is above every element. */
  lemma AboveAll<T>(items: seq<T>, pos: T -> Key, key: Key)
    requires var sorted := SortByPosition(items, pos);
      forall j :: 0 <= j < |sorted| ==> Less(pos(sorted[j]), key)
    ensures forall k :: 0 <= k < |items| ==> Less(pos(items[k]), key)
  {
    var sorted := SortByPosition(items, pos);
    SortWithPermutation(items, PositionLe(pos));
    forall k | 0 <= k < |items| ensures Less(pos(items[k]), key) {
      assert items[k] in multiset(sorted);
    }
  }

  /** The items that take part in a position calculation: without the moved item, if any
      (a falsy `movedItemId` filters nothing). */
  function Relevant<T, I(==)>(items: seq<T>, moved: Option<I>, idOf: T -> I): (r: seq<T>)
    ensures moved.None? ==> r == items
    ensures moved.Some? ==> forall i :: 0 <= i < |r| ==> idOf(r[i]) != moved.value
    ensures moved.Some? ==>
      forall i :: 0 <= i < |items| && idOf(items[i]) != moved.value ==> items[i] in r
    ensures multiset(r) <= multiset(items)
  {
    match moved
    case None => items
    case Some(m) =>
      FilterMultiset(items, x => idOf(x) != m);
      FilterMembers(items, x => idOf(x) != m);
      Filter(items, x => idOf(x) != m)
  }

  /** `targetIndex` clamped to `[0, n]`: the rank a new item is meant to take. */
  function Clamp(targetIndex: int, n: nat): (c: nat)
    ensures c <= n
    ensures 0 < targetIndex < n ==> c == targetIndex
  {
    if targetIndex <= 0 then 0 else if targetIndex >= n then n else targetIndex
  }

  /** `calculateNewPosition(items, targetIndex, movedItemId)`: the key that puts an item at
      index `targetIndex` among `items` sorted by position, the moved item left out. */
  function CalculateNewPosition<T, I(==)>(items: seq<T>, targetIndex: int, moved: Option<I>,
                                          idOf: T -> I, pos: T -> Key): (r: Result<Key, KeyError>)
  {
    KeyAtRank(SortByPosition(Relevant(items, moved, idOf), pos), targetIndex, pos)
  }

  /** The second half of `calculateNewPosition`: the key for index `targetIndex` among
      siblings already sorted by position. */
  function KeyAtRank<T>(sorted: seq<T>, targetIndex: int, pos: T -> Key): (r: Result<Key, KeyError>)
  {
    if |sorted| == 0 then GenerateKeyBetween(None, None)
    else if targetIndex <= 0 then PositionAtStart(pos(sorted[0]))
    else if targetIndex >= |sorted| then PositionAtEnd(pos(sorted[|sorted| - 1]))
    else PositionBetween(pos(sorted[targetIndex - 1]), pos(sorted[targetIndex]))
  }

  /** The key for a rank lies between the neighbours of the slot `clamp(targetIndex)`. */
  lemma KeyAtRankNeighbours<T>(sorted: seq<T>, targetIndex: int, pos: T -> Key)
    requires |sorted| > 0
    requires var c := Clamp(targetIndex, |sorted|);
      && (c > 0 ==> ValidKey(pos(sorted[c - 1])))
      && (c < |sorted| ==> ValidKey(pos(sorted[c])))
      && (0 < c < |sorted| ==> Less(pos(sorted[c - 1]), pos(sorted[c])))
    ensures var r := KeyAtRank(sorted, targetIndex, pos);
      var c := Clamp(targetIndex, |sorted|);
      && r.Success? && ValidKey(r.value)
      && (c > 0 ==> Less(pos(sorted[c - 1]), r.value))
      && (c < |sorted| ==> Less(r.value, pos(sorted[c])))
  {
  }

  /** Over strictly ascending valid keys, the key for a rank succeeds and lies above exactly
      the first `clamp(targetIndex, 0, n)` of them and below all the others. */
  lemma KeyAtRankSplits<T>(sorted: seq<T>, targetIndex: int, pos: T -> Key)
    requires Ascending(sorted, pos)
    requires forall j :: 0 <= j < |sorted| ==> ValidKey(pos(sorted[j]))
    ensures var r := KeyAtRank(sorted, targetIndex, pos);
      var c := Clamp(targetIndex, |sorted|);
      && r.Success? && ValidKey(r.value)
      && (forall j :: 0 <= j < c ==> Less(pos(sorted[j]), r.value))
      && (forall j :: c <= j < |sorted| ==> Less(r.value, pos(sorted[j])))
  {
    var r := KeyAtRank(sorted, targetIndex, pos);
    var c := Clamp(targetIndex, |sorted|);
    if |sorted| > 0 {
      KeyAtRankNeighbours(sorted, targetIndex, pos);
      RankFromNeighbours(sorted, pos, r.value, c);
    }
  }

  /** Every sibling carries a valid key, appears once, and no two siblings share a key. */
  ghost predicate WellKeyed<T>(s: seq<T>, pos: T -> Key) {
    && (forall i :: 0 <= i < |s| ==> ValidKey(pos(s[i])) && multiset(s)[s[i]] == 1)
    && (forall i, j :: 0 <= i < |s| && 0 <= j < |s| && s[i] != s[j] ==> pos(s[i]) != pos(s[j]))
  }

  lemma RepeatedCountsTwice<T>(s: seq<T>, i: nat, j: nat)
    requires i < j < |s| && s[i] == s[j]
    ensures multiset(s)[s[i]] >= 2
  {
    assert s == s[..j] + s[j..];
    assert s[i] in multiset(s[..j]);
    assert s[j] in multiset(s[j..]);
  }

  /** Well-keyed siblings differ in key position by position. */
  lemma WellKeyedDistinct<T>(s: seq<T>, pos: T -> Key)
    requires WellKeyed(s, pos)
    ensures KeysDistinct(s, pos)
  {
    forall i, j | 0 <= i < |s| && 0 <= j < |s| && i != j ensures pos(s[i]) != pos(s[j]) {
      if s[i] == s[j] {
        var lo, hi := if i < j then i else j, if i < j then j else i;
        RepeatedCountsTwice(s, lo, hi);
      }
    }
  }

  /** Any part of a well-keyed collection is well keyed. */
  lemma WellKeyedSubset<T>(small: seq<T>, big: seq<T>, pos: T -> Key)
    requires WellKeyed(big, pos)
    requires multiset(small) <= multiset(big)
    ensures WellKeyed(small, pos)
  {
    forall i | 0 <= i < |small| ensures small[i] in big && multiset(small)[small[i]] == 1 {
      assert small[i] in multiset(big);
      assert small[i] in multiset(small);
    }
  }

  /** The siblings a calculation looks at, once sorted, are strictly ascending valid keys. */
  lemma SortedSiblings<T, I>(items: seq<T>, moved: Option<I>, idOf: T -> I, pos: T -> Key)
    requires WellKeyed(items, pos)
    ensures var rel := Relevant(items, moved, idOf);
      && multiset(SortByPosition(rel, pos)) == multiset(rel)
      && Ascending(SortByPosition(rel, pos), pos)
      && WellKeyed(rel, pos)
      && forall j :: 0 <= j < |rel| ==> ValidKey(pos(SortByPosition(rel, pos)[j]))
  {
    var rel := Relevant(items, moved, idOf);
    var sorted := SortByPosition(rel, pos);
    WellKeyedSubset(rel, items, pos);
    WellKeyedDistinct(rel, pos);
    SortByPositionAscending(rel, pos);
    SortWithPermutation(rel, PositionLe(pos));
    WellKeyedSubset(sorted, rel, pos);
  }

  /** The rank theorem of `calculateNewPosition`: over well-keyed siblings it succeeds, and
      the key lies above exactly the first `clamp(targetIndex, 0, n)` siblings in position
      order and below all the others, so it never collides with a sibling key. */
  lemma CalculateNewPositionRank<T, I>(items: seq<T>, targetIndex: int, moved: Option<I>,
                                           idOf: T -> I, pos: T -> Key)
    requires WellKeyed(items, pos)
    ensures var r := CalculateNewPosition(items, targetIndex, moved, idOf, pos);
      var sorted := SortByPosition(Relevant(items, moved, idOf), pos);
      var c := Clamp(targetIndex, |sorted|);
      && r.Success? && ValidKey(r.value)
      && (forall j :: 0 <= j < c ==> Less(pos(sorted[j]), r.value))
      && (forall j :: c <= j < |sorted| ==> Less(r.value, pos(sorted[j])))
  {
    SortedSiblings(items, moved, idOf, pos);
    KeyAtRankSplits(SortByPosition(Relevant(items, moved, idOf), pos), targetIndex, pos);
  }

  /** A key above the element just before index `c` of an ascending sequence and below the
      element at `c` is above all elements before `c` and below all the others. */
  lemma RankFromNeighbours<T>(sorted: seq<T>, pos: T -> Key, key: Key, c: nat)
    requires Ascending(sorted, pos) && c <= |sorted|
    requires c > 0 ==> Less(pos(sorted[c - 1]), key)
    requires c < |sorted| ==> Less(key, pos(sorted[c]))
    ensures forall j :: 0 <= j < c ==> Less(pos(sorted[j]), key)
    ensures forall j :: c <= j < |sorted| ==> Less(key, pos(sorted[j]))
  {
    forall j | 0 <= j < c - 1 ensures Less(pos(sorted[j]), key) {
      LessTransitive(pos(sorted[j]), pos(sorted[c - 1]), key);
    }
    forall j | c < j < |sorted| ensures Less(key, pos(sorted[j])) {
      LessTransitive(key, pos(sorted[c]), pos(sorted[j]));
    }
  }

  /** An item whose key lies above the first `c` elements of an ascending sequence and below
      the rest keeps the sequence ascending when spliced in at index `c`. */
  lemma AscendingSplice<T>(sorted: seq<T>, x: T, c: nat, pos: T -> Key)
    requires Ascending(sorted, pos) && c <= |sorted|
    requires forall j :: 0 <= j < c ==> Less(pos(sorted[j]), pos(x))
    requires forall j :: c <= j < |sorted| ==> Less(pos(x), pos(sorted[j]))
    ensures Ascending(sorted[..c] + [x] + sorted[c..], pos)
  {
    var t := sorted[..c] + [x] + sorted[c..];
    forall i, j | 0 <= i < j < |t| ensures Less(pos(t[i]), pos(t[j])) {
      if j < c {
        assert t[i] == sorted[i] && t[j] == sorted[j];
      } else if j == c {
        assert t[i] == sorted[i];
      } else if i < c {
        assert t[i] == sorted[i] && t[j] == sorted[j - 1];
        LessTransitive(pos(t[i]), pos(x), pos(t[j]));
      } else if i == c {
        assert t[j] == sorted[j - 1];
      } else {
        assert t[i] == sorted[i - 1] && t[j] == sorted[j - 1];
      }
    }
  }

  /** Appending an item whose key no element has keeps the keys distinct. */
  lemma DistinctAppend<T>(s: seq<T>, x: T, pos: T -> Key)
    requires KeysDistinct(s, pos)
    requires forall i :: 0 <= i < |s| ==> pos(s[i]) != pos(x)
    ensures KeysDistinct(s + [x], pos)
  {
    var u := s + [x];
    forall i, j | 0 <= i < |u| && 0 <= j < |u| && i != j ensures pos(u[i]) != pos(u[j]) {
      if i < |s| && j < |s| {
        assert u[i] == s[i] && u[j] == s[j];
      } else if i < |s| {
        assert u[i] == s[i];
      } else {
        assert u[j] == s[j];
      }
    }
  }

  /** Sorting a collection with one new item whose key ranks it at `c` among the sorted
      collection puts it at index `c`. */
  lemma SortInsertsAtRank<T>(rel: seq<T>, x: T, c: nat, pos: T -> Key)
    requires KeysDistinct(rel, pos)
    requires c <= |rel|
    requires forall j :: 0 <= j < c ==> Less(pos(SortByPosition(rel, pos)[j]), pos(x))
    requires forall j :: c <= j < |rel| ==> Less(pos(x), pos(SortByPosition(rel, pos)[j]))
    ensures var sorted := SortByPosition(rel, pos);
      SortByPosition(rel + [x], pos) == sorted[..c] + [x] + sorted[c..]
  {
    var sorted := SortByPosition(rel, pos);
    SortByPositionAscending(rel, pos);
    SortWithPermutation(rel, PositionLe(pos));
    var t := sorted[..c] + [x] + sorted[c..];
    AscendingSplice(sorted, x, c, pos);
    assert sorted == sorted[..c] + sorted[c..];
    assert multiset(t) == multiset(rel + [x]);
    forall i | 0 <= i < |rel| ensures pos(rel[i]) != pos(x) {
      assert rel[i] in multiset(sorted);
      var k :| 0 <= k < |sorted| && sorted[k] == rel[i];
      LessIrreflexive(pos(x));
    }
    DistinctAppend(rel, x, pos);
    SortByPositionAscending(rel + [x], pos);
    SortWithPermutation(rel + [x], PositionLe(pos));
    AscendingUnique(SortByPosition(rel + [x], pos), t, pos);
  }

  /** Placing the item: once it carries the new key, the siblings sorted by position are the
      old order with the item inserted at index `clamp(targetIndex, 0, n)`. */
  lemma CalculateNewPositionInserts<T, I>(items: seq<T>, targetIndex: int, moved: Option<I>,
                                          idOf: T -> I, pos: T -> Key, x: T)
    requires WellKeyed(items, pos)
    requires CalculateNewPosition(items, targetIndex, moved, idOf, pos) == Success(pos(x))
    ensures var rel := Relevant(items, moved, idOf);
      var sorted := SortByPosition(rel, pos);
      var c := Clamp(targetIndex, |sorted|);
      SortByPosition(rel + [x], pos) == sorted[..c] + [x] + sorted[c..]
  {
    var rel := Relevant(items, moved, idOf);
    CalculateNewPositionRank(items, targetIndex, moved, idOf, pos);
    SortedSiblings(items, moved, idOf, pos);
    WellKeyedDistinct(rel, pos);
    SortInsertsAtRank(rel, x, Clamp(targetIndex, |rel|), pos);
  }

  /** Well-keyed collections sort the same whatever order they come in. */
  lemma SortByPositionPermutation<T>(a: seq<T>, b: seq<T>, pos: T -> Key)
    requires WellKeyed(a, pos) && multiset(a) == multiset(b)
    ensures SortByPosition(a, pos) == SortByPosition(b, pos)
  {
    WellKeyedSubset(b, a, pos);
    WellKeyedDistinct(a, pos);
    WellKeyedDistinct(b, pos);
    SortByPositionAscending(a, pos);
    SortByPositionAscending(b, pos);
    SortWithPermutation(a, PositionLe(pos));
    SortWithPermutation(b, PositionLe(pos));
    AscendingUnique(SortByPosition(a, pos), SortByPosition(b, pos), pos);
  }

  /** Adding an item whose key no well-keyed element has keeps the collection well keyed. */
  lemma WellKeyedAppend<T>(rel: seq<T>, x: T, pos: T -> Key)
    requires WellKeyed(rel, pos) && ValidKey(pos(x))
    requires forall k :: 0 <= k < |rel| ==> pos(rel[k]) != pos(x)
    ensures WellKeyed(rel + [x], pos)
  {
    assert x !in multiset(rel);
    var u := rel + [x];
    forall k | 0 <= k < |u| ensures ValidKey(pos(u[k])) && multiset(u)[u[k]] == 1 {
      if k < |rel| {
        assert u[k] == rel[k];
      }
    }
    forall k, l | 0 <= k < |u| && 0 <= l < |u| && u[k] != u[l] ensures pos(u[k]) != pos(u[l]) {
      if k < |rel| && l < |rel| {
        assert u[k] == rel[k] && u[l] == rel[l];
      } else if k < |rel| {
        assert u[k] == rel[k];
      } else if l < |rel| {
        assert u[l] == rel[l];
      }
    }
  }

  /** The key `calculateNewPosition` returns over well-keyed items is new among them. */
  lemma NewKeyIsFresh<T, I>(items: seq<T>, targetIndex: int, idOf: T -> I, pos: T -> Key)
    requires WellKeyed(items, pos)
    ensures var r := CalculateNewPosition(items, targetIndex, None, idOf, pos);
      r.Success? && ValidKey(r.value) && forall k :: 0 <= k < |items| ==> pos(items[k]) != r.value
  {
    var r := CalculateNewPosition(items, targetIndex, None, idOf, pos);
    CalculateNewPositionRank(items, targetIndex, None, idOf, pos);
    SortedSiblings(items, None, idOf, pos);
    var sorted := SortByPosition(items, pos);
    forall k | 0 <= k < |items| ensures pos(items[k]) != r.value {
      assert items[k] in multiset(sorted);
      var j :| 0 <= j < |sorted| && sorted[j] == items[k];
      LessIrreflexive(r.value);
    }
  }

  /** A group of a store whose ids are distinct: moving the element at `i` into the group
      with the key computed among the group's other members (`others`) puts it at index
      `clamp(targetIndex, 0, n)` of the group sorted by position. This is the "moved item
      is excluded from its own sibling set" step of moving a card or a list. */
  lemma ReplaceInGroupPlaces<T, I>(s: seq<T>, i: nat, x: T, group: T -> bool, others: T -> bool,
                                   targetIndex: int, idOf: T -> I, pos: T -> Key)
    requires i < |s| && idOf(x) == idOf(s[i]) && group(x)
    requires forall a, b :: 0 <= a < b < |s| ==> idOf(s[a]) != idOf(s[b])
    requires forall y :: others(y) == (group(y) && idOf(y) != idOf(x))
    requires WellKeyed(Filter(s, others), pos)
    requires CalculateNewPosition(Filter(s, others), targetIndex, None, idOf, pos) == Success(pos(x))
    ensures var sorted := SortByPosition(Filter(s, others), pos);
      var c := Clamp(targetIndex, |sorted|);
      SortByPosition(Filter(s[i := x], group), pos) == sorted[..c] + [x] + sorted[c..]
  {
    var rel := Filter(s, others);
    CalculateNewPositionInserts(rel, targetIndex, None, idOf, pos, x);
    FilterReplace(s, i, x, group, others, idOf);
    NewKeyIsFresh(rel, targetIndex, idOf, pos);
    WellKeyedAppend(rel, x, pos);
    SortByPositionPermutation(rel + [x], Filter(s[i := x], group), pos);
  }

  /** Each key generated after its predecessor, the first one without bounds. */
  ghost predicate Chained(positions: seq<Key>) {
    && (|positions| > 0 ==> Success(positions[0]) == GenerateKeyBetween(None, None))
    && (forall i :: 0 < i < |positions| ==>
          Success(positions[i]) == GenerateKeyBetween(Some(positions[i - 1]), None))
  }

  /** Keys each strictly above the one before are strictly ascending. */
  lemma {:induction false} StepsAscending(positions: seq<Key>)
    requires forall i :: 0 < i < |positions| ==> Less(positions[i - 1], positions[i])
    ensures forall i, j :: 0 <= i < j < |positions| ==> Less(positions[i], positions[j])
  {
    if |positions| > 1 {
      var n := |positions| - 1;
      var init := positions[..n];
      forall i | 0 < i < |init| ensures Less(init[i - 1], init[i]) {
        assert init[i - 1] == positions[i - 1] && init[i] == positions[i];
      }
      StepsAscending(init);
      forall i, j | 0 <= i < j < |positions| ensures Less(positions[i], positions[j]) {
        if j < n {
          assert positions[i] == init[i] && positions[j] == init[j];
        } else if i < n - 1 {
          assert positions[i] == init[i] && positions[n - 1] == init[n - 1];
          LessTransitive(positions[i], positions[n - 1], positions[n]);
        }
      }
    }
  }

  /** Chained keys are valid and strictly ascending. */
  lemma ChainedAscending(positions: seq<Key>)
    requires Chained(positions)
    ensures forall i :: 0 <= i < |positions| ==> ValidKey(positions[i])
    ensures forall i, j :: 0 <= i < j < |positions| ==> Less(positions[i], positions[j])
  {
    forall i | 0 <= i < |positions| ensures ValidKey(positions[i]) {
      if i > 0 {
        assert Success(positions[i]) == GenerateKeyBetween(Some(positions[i - 1]), None);
      }
    }
    forall i | 0 < i < |positions| ensures Less(positions[i - 1], positions[i]) {
      assert Success(positions[i]) == GenerateKeyBetween(Some(positions[i - 1]), None);
    }
    StepsAscending(positions);
  }

  /** `generateInitialPositions(count)`: `count` keys (none for a count of zero or less),
      the first generated without bounds and each next one after its predecessor, so they
      are strictly ascending. */
  method GenerateInitialPositions(count: int) returns (positions: seq<Key>)
    ensures |positions| == if count > 0 then count else 0
    ensures |positions| > 0 ==> Success(positions[0]) == GenerateKeyBetween(None, None)
    ensures forall i :: 0 < i < |positions| ==>
      Success(positions[i]) == GenerateKeyBetween(Some(positions[i - 1]), None)
    ensures forall i :: 0 <= i < |positions| ==> ValidKey(positions[i])
    ensures forall i, j :: 0 <= i < j < |positions| ==> Less(positions[i], positions[j])
  {
    positions := [];
    var previous: Option<Key> := None;
    var i := 0;
    while i < count
      invariant 0 <= i == |positions|
      invariant i <= count || i == 0
      invariant previous == if i == 0 then None else Some(positions[i - 1])
      invariant Chained(positions)
    {
      ChainedAscending(positions);
      var position := GenerateKeyBetween(previous, None).value;
      positions := positions + [position];
      previous := Some(position);
      i := i + 1;
    }
    ChainedAscending(positions);
  }
}
