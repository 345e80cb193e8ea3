/**
 * The free-text filter of `handleSearchText`
 * (force-app/main/default/lwc/searchListDataTableWrapper/searchListDataTableWrapper.js).
 */
module TextSearch {
  import opened Strings
  import opened Records

  /** `value && value.length > 0 && value.toLowerCase().includes(searchText.toLowerCase())` */
  predicate FieldMatches(value: string, text: string) {
    |value| > 0 && Contains(Lower(value), Lower(text))
  }

  /** Some property of `r` matches `text`. */
  ghost predicate RecordMatches(r: FlatRecord, text: string) {
    exists i :: 0 <= i < |r| && FieldMatches(r[i].1, text)
  }

  /** The number of properties of `r` that match `text`. */
  function MatchCount(r: FlatRecord, text: string): nat {
    if r == [] then 0
    else MatchCount(r[..|r| - 1], text) + (if FieldMatches(r[|r| - 1].1, text) then 1 else 0)
  }

  /** `n` copies of `r`. */
  function Repeat(r: FlatRecord, n: nat): (s: seq<FlatRecord>)
    ensures |s| == n && forall i :: 0 <= i < n ==> s[i] == r
  {
    seq(n, i => r)
  }

  /** The records of `all` that match, each once per matching property, in the order of `all`. */
  function Search(all: seq<FlatRecord>, text: string): seq<FlatRecord> {
    if all == [] then []
    else Search(all[..|all| - 1], text) + Repeat(all[|all| - 1], MatchCount(all[|all| - 1], text))
  }

  /** A record is counted at least once exactly when one of its properties matches. */
  lemma {:induction false} MatchCountPositive(r: FlatRecord, text: string)
    ensures MatchCount(r, text) > 0 <==> RecordMatches(r, text)
  {
    if r != [] {
      var n := |r| - 1;
      MatchCountPositive(r[..n], text);
      if RecordMatches(r[..n], text) {
        var i :| 0 <= i < n && FieldMatches(r[..n][i].1, text);
        assert FieldMatches(r[i].1, text);
      }
      if RecordMatches(r, text) {
        var i :| 0 <= i < |r| && FieldMatches(r[i].1, text);
        if i < n {
          assert FieldMatches(r[..n][i].1, text);
        }
      }
    }
  }

  /** The filter works record by record, so its output keeps the order of `allRecords`. */
  lemma {:induction false} SearchAppend(first: seq<FlatRecord>, second: seq<FlatRecord>, text: string)
    ensures Search(first + second, text) == Search(first, text) + Search(second, text)
    decreases |second|
  {
    if second == [] {
      assert first + second == first;
    } else {
      var n := |second| - 1;
      var all := first + second;
      SearchAppend(first, second[..n], text);
      assert all[..|all| - 1] == first + second[..n];
      assert all[|all| - 1] == second[n];
      assert Search(all, text) == Search(first + second[..n], text) + Repeat(second[n], MatchCount(second[n], text));
      assert Search(second, text) == Search(second[..n], text) + Repeat(second[n], MatchCount(second[n], text));
    }
  }

  lemma {:induction false} RepeatCount(r: FlatRecord, n: nat, x: FlatRecord)
    ensures multiset(Repeat(r, n))[x] == if x == r then n else 0
  {
    if n > 0 {
      RepeatCount(r, n - 1, x);
      assert Repeat(r, n) == Repeat(r, n - 1) + [r];
    }
  }

  /**
   * There is no de-duplication: the result lists each record as often as it
   * occurs in `allRecords` times the number of its matching properties.
   */
  lemma {:induction false} SearchCount(all: seq<FlatRecord>, text: string, x: FlatRecord)
    ensures multiset(Search(all, text))[x] == multiset(all)[x] * MatchCount(x, text)
  {
    if all != [] {
      var n := |all| - 1;
      var before := multiset(all[..n])[x];
      SearchCount(all[..n], text, x);
      RepeatCount(all[n], MatchCount(all[n], text), x);
      assert all == all[..n] + [all[n]];
      if x == all[n] {
        assert multiset(all)[x] == before + 1;
        assert (before + 1) * MatchCount(x, text) == before * MatchCount(x, text) + MatchCount(x, text);
      } else {
        assert multiset(all)[x] == before;
      }
    }
  }

  /** An account whose name and website both contain "acme" is listed twice. */
  lemma SearchDuplicates()
    ensures var r := [("Name", "Acme"), ("Website", "acme.com")];
      Search([r], "acme") == [r, r]
  {
    var r := [("Name", "Acme"), ("Website", "acme.com")];
    assert Lower("Acme") == "acme";
    assert Lower("acme.com") == "acme" + ".com";
    ContainsPart("", "acme", "");
    ContainsPart("", "acme", ".com");
    assert "" + "acme" + "" == "acme";
    assert r[..1] == [("Name", "Acme")];
    assert r[..1][..0] == [];
    var one: seq<FlatRecord> := [r];
    assert one[..0] == [];
    assert MatchCount(r, "acme") == 2;
    assert Search(one, "acme") == Repeat(r, 2);
  }

  /** Every record the filter keeps comes from `allRecords` and has a matching property, and every such record is kept. */
  lemma {:induction false} SearchMeaning(all: seq<FlatRecord>, text: string, x: FlatRecord)
    ensures x in Search(all, text) <==> x in all && RecordMatches(x, text)
  {
    if all != [] {
      var n := |all| - 1;
      SearchMeaning(all[..n], text, x);
      MatchCountPositive(all[n], text);
      assert all == all[..n] + [all[n]];
      if x in Repeat(all[n], MatchCount(all[n], text)) {
        assert x == all[n];
      }
      if x == all[n] && RecordMatches(x, text) {
        assert x == Repeat(all[n], MatchCount(all[n], text))[0];
      }
    }
  }

  /**
   * The nested loops of `handleSearchText`: for each record, and within it
   * for each property, the record is pushed when that property matches.
   */
  method MatchingRecords(all: seq<FlatRecord>, text: string) returns (filtered: seq<FlatRecord>)
    ensures filtered == Search(all, text)
  {
    filtered := [];
    var index := 0;
    while index < |all|
      invariant 0 <= index <= |all|
      invariant filtered == Search(all[..index], text)
    {
      var record := all[index];
      ghost var before := filtered;
      var j := 0;
      while j < |record|
        invariant 0 <= j <= |record|
        invariant filtered == before + Repeat(record, MatchCount(record[..j], text))
      {
        var value := record[j].1;
        assert record[..j + 1][..j] == record[..j];
        if |value| > 0 && Contains(Lower(value), Lower(text)) {
          filtered := filtered + [record];
        }
        j := j + 1;
      }
      assert record[..j] == record;
      assert all[..index + 1][..index] == all[..index];
      index := index + 1;
    }
    assert all[..index] == all;
  }
}
