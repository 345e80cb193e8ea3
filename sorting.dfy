/**
 * The comparator `sortBy` builds and the sort `onHandleSort` applies
 * (force-app/main/default/lwc/searchListDataTableWrapper/searchListDataTableWrapper.js).
 */
module Sorting {
  import opened Wrappers
  import opened Strings
  import opened Records

  /** The key compared for `field`: its value, undefined read as `""`, lower-cased. */
  function SortKey(r: FlatRecord, field: string): string {
    Lower(Lookup(r, field).GetOr(""))
  }

  /** The comparator `sortBy(field, reverse)` returns: `reverse * ((a > b) - (b > a))` on the keys. */
  function Compare(a: FlatRecord, b: FlatRecord, field: string, reverse: int): int {
    reverse * Sign(SortKey(a, field), SortKey(b, field))
  }

  /** `sortDirection === "asc" ? 1 : -1` */
  function ReverseOf(direction: string): (reverse: int)
    ensures reverse == 1 || reverse == -1
    ensures reverse == 1 <==> direction == "asc"
  {
    if direction == "asc" then 1 else -1
  }

  /**
   * The comparator is antisymmetric and zero on a record and itself; for a
   * direction of 1 or -1 it is zero exactly when the two keys are equal.
   */
  lemma CompareAntisymmetric(a: FlatRecord, b: FlatRecord, field: string, reverse: int)
    ensures Compare(a, b, field, reverse) == -Compare(b, a, field, reverse)
    ensures Compare(a, a, field, reverse) == 0
    ensures reverse != 0 ==> (Compare(a, b, field, reverse) == 0 <==> SortKey(a, field) == SortKey(b, field))
  {
    SignProperties(SortKey(a, field), SortKey(b, field));
    SignProperties(SortKey(a, field), SortKey(a, field));
  }

  /** "Comes no later than" under the comparator is transitive. */
  lemma CompareTransitive(a: FlatRecord, b: FlatRecord, c: FlatRecord, field: string, reverse: int)
    requires reverse == 1 || reverse == -1
    requires Compare(a, b, field, reverse) <= 0 && Compare(b, c, field, reverse) <= 0
    ensures Compare(a, c, field, reverse) <= 0
  {
    var ka, kb, kc := SortKey(a, field), SortKey(b, field), SortKey(c, field);
    SignProperties(ka, kb);
    SignProperties(kb, kc);
    SignProperties(ka, kc);
    LessTransitive(ka, kb, kc);
    LessTransitive(kc, kb, ka);
  }

  /** `s` is ordered by the comparator. */
  ghost predicate Ordered(s: seq<FlatRecord>, field: string, reverse: int) {
    forall i, j :: 0 <= i < j < |s| ==> Compare(s[i], s[j], field, reverse) <= 0
  }

  /** Factor 1 puts a record no later than another unless its key is greater; factor -1 unless it is smaller. */
  lemma CompareDirection(a: FlatRecord, b: FlatRecord, field: string)
    ensures Compare(a, b, field, 1) <= 0 <==> !Less(SortKey(b, field), SortKey(a, field))
    ensures Compare(a, b, field, -1) <= 0 <==> !Less(SortKey(a, field), SortKey(b, field))
  {
    LessAsymmetric(SortKey(a, field), SortKey(b, field));
  }

  /**
   * The direction `"asc"` orders the records by ascending key, any other
   * direction by descending key.
   */
  lemma DirectionOrder(s: seq<FlatRecord>, field: string, direction: string)
    ensures direction == "asc" ==> (Ordered(s, field, ReverseOf(direction)) <==>
      forall i, j :: 0 <= i < j < |s| ==> !Less(SortKey(s[j], field), SortKey(s[i], field)))
    ensures direction != "asc" ==> (Ordered(s, field, ReverseOf(direction)) <==>
      forall i, j :: 0 <= i < j < |s| ==> !Less(SortKey(s[i], field), SortKey(s[j], field)))
  {
    forall i, j | 0 <= i < j < |s| {
      CompareDirection(s[i], s[j], field);
    }
  }

  /** Places `x` before the first element that it does not follow. */
  function Insert(x: FlatRecord, s: seq<FlatRecord>, field: string, reverse: int): seq<FlatRecord> {
    if s == [] || Compare(x, s[0], field, reverse) <= 0 then [x] + s
    else [s[0]] + Insert(x, s[1..], field, reverse)
  }

  /**
   * `Array.prototype.sort` with the comparator, as a stable insertion sort
   * (the host guarantees stability, and stable sorting has one result).
   */
  function SortBy(s: seq<FlatRecord>, field: string, reverse: int): seq<FlatRecord> {
    if s == [] then [] else Insert(s[0], SortBy(s[1..], field, reverse), field, reverse)
  }

  lemma {:induction false} InsertPermutation(x: FlatRecord, s: seq<FlatRecord>, field: string, reverse: int)
    ensures multiset(Insert(x, s, field, reverse)) == multiset{x} + multiset(s)
  {
    if s != [] && Compare(x, s[0], field, reverse) > 0 {
      InsertPermutation(x, s[1..], field, reverse);
      assert s == [s[0]] + s[1..];
    }
  }

  /** Every record of `Insert(x, s)` is `x` or a record of `s`. */
  lemma {:induction false} InsertMembers(x: FlatRecord, s: seq<FlatRecord>, field: string, reverse: int, j: int)
    requires 0 <= j < |Insert(x, s, field, reverse)|
    ensures Insert(x, s, field, reverse)[j] == x || Insert(x, s, field, reverse)[j] in s
  {
    if s != [] && Compare(x, s[0], field, reverse) > 0 && j > 0 {
      InsertMembers(x, s[1..], field, reverse, j - 1);
      assert Insert(x, s, field, reverse)[j] == Insert(x, s[1..], field, reverse)[j - 1];
    }
  }

  lemma {:induction false} InsertOrdered(x: FlatRecord, s: seq<FlatRecord>, field: string, reverse: int)
    requires reverse == 1 || reverse == -1
    requires Ordered(s, field, reverse)
    ensures Ordered(Insert(x, s, field, reverse), field, reverse)
  {
    var r := Insert(x, s, field, reverse);
    if s == [] {
    } else if Compare(x, s[0], field, reverse) <= 0 {
      assert r == [x] + s;
      forall j | 1 <= j < |r|
        ensures Compare(x, r[j], field, reverse) <= 0
      {
        if j > 1 {
          CompareTransitive(x, s[0], s[j - 1], field, reverse);
        }
      }
    } else {
      CompareAntisymmetric(x, s[0], field, reverse);
      InsertOrdered(x, s[1..], field, reverse);
      var tail := Insert(x, s[1..], field, reverse);
      assert r == [s[0]] + tail;
      forall j | 0 <= j < |tail|
        ensures Compare(s[0], tail[j], field, reverse) <= 0
      {
        InsertMembers(x, s[1..], field, reverse, j);
        if tail[j] != x {
          var k :| 0 <= k < |s[1..]| && s[1..][k] == tail[j];
          assert s[k + 1] == tail[j];
        }
      }
    }
  }

  lemma {:induction false} SortByPermutation(s: seq<FlatRecord>, field: string, reverse: int)
    ensures multiset(SortBy(s, field, reverse)) == multiset(s)
  {
    if s != [] {
      SortByPermutation(s[1..], field, reverse);
      InsertPermutation(s[0], SortBy(s[1..], field, reverse), field, reverse);
      assert s == [s[0]] + s[1..];
    }
  }

  lemma {:induction false} SortByOrdered(s: seq<FlatRecord>, field: string, reverse: int)
    requires reverse == 1 || reverse == -1
    ensures Ordered(SortBy(s, field, reverse), field, reverse)
  {
    if s != [] {
      SortByOrdered(s[1..], field, reverse);
      InsertOrdered(s[0], SortBy(s[1..], field, reverse), field, reverse);
    }
  }

  /** Sorting yields a permutation of its input, ordered by the comparator. */
  lemma SortByMeaning(s: seq<FlatRecord>, field: string, reverse: int)
    requires reverse == 1 || reverse == -1
    ensures multiset(SortBy(s, field, reverse)) == multiset(s)
    ensures Ordered(SortBy(s, field, reverse), field, reverse)
  {
    SortByPermutation(s, field, reverse);
    SortByOrdered(s, field, reverse);
  }

  /** The records of `s` whose sort key is `key`, in their order in `s`. */
  function WithKey(s: seq<FlatRecord>, field: string, key: string): seq<FlatRecord> {
    if s == [] then []
    else (if SortKey(s[0], field) == key then [s[0]] else []) + WithKey(s[1..], field, key)
  }

  lemma WithKeyCons(h: FlatRecord, t: seq<FlatRecord>, field: string, key: string)
    ensures WithKey([h] + t, field, key) == (if SortKey(h, field) == key then [h] else []) + WithKey(t, field, key)
  {
    assert ([h] + t)[1..] == t;
  }

  /** Passing over a record with another key does not change what a key's records are. */
  lemma WithKeySkip(x: FlatRecord, h: FlatRecord, rest: seq<FlatRecord>, tail: seq<FlatRecord>, field: string, key: string)
    requires SortKey(x, field) != SortKey(h, field)
    requires WithKey(tail, field, key) == (if SortKey(x, field) == key then [x] else []) + WithKey(rest, field, key)
    ensures WithKey([h] + tail, field, key) == (if SortKey(x, field) == key then [x] else []) + WithKey([h] + rest, field, key)
  {
    WithKeyCons(h, tail, field, key);
    WithKeyCons(h, rest, field, key);
  }

  lemma {:induction false} InsertStable(x: FlatRecord, s: seq<FlatRecord>, field: string, reverse: int, key: string)
    ensures WithKey(Insert(x, s, field, reverse), field, key) ==
      (if SortKey(x, field) == key then [x] else []) + WithKey(s, field, key)
  {
    if s == [] || Compare(x, s[0], field, reverse) <= 0 {
      WithKeyCons(x, s, field, key);
    } else {
      CompareAntisymmetric(x, s[0], field, reverse);
      InsertStable(x, s[1..], field, reverse, key);
      assert Insert(x, s, field, reverse) == [s[0]] + Insert(x, s[1..], field, reverse);
      assert s == [s[0]] + s[1..];
      WithKeySkip(x, s[0], s[1..], Insert(x, s[1..], field, reverse), field, key);
    }
  }

  /** Sorting is stable: the records sharing a key keep their relative order. */
  lemma {:induction false} SortByStable(s: seq<FlatRecord>, field: string, reverse: int, key: string)
    ensures WithKey(SortBy(s, field, reverse), field, key) == WithKey(s, field, key)
  {
    if s != [] {
      SortByStable(s[1..], field, reverse, key);
      InsertStable(s[0], SortBy(s[1..], field, reverse), field, reverse, key);
    }
  }

  lemma {:induction false} WithKeyHasOnlyKey(s: seq<FlatRecord>, field: string, key: string, x: FlatRecord)
    requires x in WithKey(s, field, key)
    ensures x in s && SortKey(x, field) == key
  {
    if s != [] && x !in (if SortKey(s[0], field) == key then [s[0]] else []) {
      WithKeyHasOnlyKey(s[1..], field, key, x);
    }
  }

  /** A non-empty sequence has records with the key of its first record. */
  lemma WithKeyOfFirst(s: seq<FlatRecord>, field: string)
    ensures s != [] ==> WithKey(s, field, SortKey(s[0], field)) != []
  {
  }

  /** The first record of an ordered sequence comes no later than any record in it. */
  lemma OrderedFirst(r: seq<FlatRecord>, field: string, reverse: int, x: FlatRecord)
    requires Ordered(r, field, reverse) && x in r
    ensures Compare(r[0], x, field, reverse) <= 0
  {
    var i :| 0 <= i < |r| && r[i] == x;
    if i == 0 {
      CompareAntisymmetric(x, x, field, reverse);
    }
  }

  /** Two non-empty ordered sequences with the same records per key start with the same record. */
  lemma OrderedSameHead(r1: seq<FlatRecord>, r2: seq<FlatRecord>, field: string, reverse: int)
    requires reverse == 1 || reverse == -1
    requires r1 != [] && r2 != []
    requires Ordered(r1, field, reverse) && Ordered(r2, field, reverse)
    requires forall key :: WithKey(r1, field, key) == WithKey(r2, field, key)
    ensures r1[0] == r2[0]
  {
    var k1, k2 := SortKey(r1[0], field), SortKey(r2[0], field);
    var w1 := WithKey(r1, field, k1);
    assert w1 == [r1[0]] + WithKey(r1[1..], field, k1);
    assert WithKey(r2, field, k1) == w1;
    WithKeyHasOnlyKey(r2, field, k1, r1[0]);
    var w2 := WithKey(r2, field, k2);
    assert w2 == [r2[0]] + WithKey(r2[1..], field, k2);
    assert WithKey(r1, field, k2) == w2;
    WithKeyHasOnlyKey(r1, field, k2, r2[0]);
    OrderedFirst(r1, field, reverse, r2[0]);
    OrderedFirst(r2, field, reverse, r1[0]);
    CompareAntisymmetric(r1[0], r2[0], field, reverse);
    assert k1 == k2;
    assert w2 == w1;
    assert w1[0] == r1[0] && w2[0] == r2[0];
  }

  /** Two ordered sequences with the same records per key, in the same order per key, are equal. */
  lemma {:induction false} OrderedUnique(r1: seq<FlatRecord>, r2: seq<FlatRecord>, field: string, reverse: int)
    requires reverse == 1 || reverse == -1
    requires Ordered(r1, field, reverse) && Ordered(r2, field, reverse)
    requires forall key :: WithKey(r1, field, key) == WithKey(r2, field, key)
    ensures r1 == r2
    decreases |r1| + |r2|
  {
    if r1 == [] && r2 == [] {
    } else if r1 == [] {
      WithKeyOfFirst(r2, field);
      assert false;
    } else if r2 == [] {
      WithKeyOfFirst(r1, field);
      assert false;
    } else {
      OrderedSameHead(r1, r2, field, reverse);
      forall key
        ensures WithKey(r1[1..], field, key) == WithKey(r2[1..], field, key)
      {
        var head := if SortKey(r1[0], field) == key then [r1[0]] else [];
        assert WithKey(r1, field, key) == head + WithKey(r1[1..], field, key);
        assert WithKey(r2, field, key) == head + WithKey(r2[1..], field, key);
        assert WithKey(r1[1..], field, key) == WithKey(r1, field, key)[|head|..];
        assert WithKey(r2[1..], field, key) == WithKey(r2, field, key)[|head|..];
      }
      OrderedUnique(r1[1..], r2[1..], field, reverse);
      assert r1 == [r1[0]] + r1[1..] && r2 == [r2[0]] + r2[1..];
    }
  }

  /**
   * Re-sorting by the same field in either direction and then sorting again
   * restores the result of the last sort alone: a descending sort followed by
   * an ascending one gives back the ascending order, ties included.
   */
  lemma ResortRoundTrip(s: seq<FlatRecord>, field: string, first: int, reverse: int)
    requires first == 1 || first == -1
    requires reverse == 1 || reverse == -1
    ensures SortBy(SortBy(s, field, first), field, reverse) == SortBy(s, field, reverse)
  {
    var once := SortBy(s, field, reverse);
    var twice := SortBy(SortBy(s, field, first), field, reverse);
    SortByMeaning(s, field, reverse);
    SortByMeaning(SortBy(s, field, first), field, reverse);
    forall key
      ensures WithKey(twice, field, key) == WithKey(once, field, key)
    {
      SortByStable(SortBy(s, field, first), field, reverse, key);
      SortByStable(s, field, first, key);
      SortByStable(s, field, reverse, key);
    }
    OrderedUnique(twice, once, field, reverse);
  }
}
