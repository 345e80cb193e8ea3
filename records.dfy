/**
 * Records as the data table holds them, and the flattening `doSearch`
 * applies to the fetched rows
 * (force-app/main/default/lwc/searchListDataTableWrapper/searchListDataTableWrapper.js).
 */
module Records {
  import opened Wrappers

  /**
   * A flattened record: the properties of the JavaScript object the table
   * renders, as (key, value) pairs in insertion order.
   */
  type FlatRecord = seq<(string, string)>

  /** A field of a fetched row: a scalar, or a related object one level down. */
  datatype RawValue = Scalar(text: string) | Nested(children: seq<(string, string)>)

  /** A fetched row, its fields in the order the record source delivers them. */
  type RawRecord = seq<(string, RawValue)>

  /** The property names of a record, in order. */
  function Keys(r: FlatRecord): (ks: seq<string>)
    ensures |ks| == |r|
    ensures forall i :: 0 <= i < |r| ==> ks[i] == r[i].0
  {
    seq(|r|, i requires 0 <= i < |r| => r[i].0)
  }

  /** No key is held twice, as in every JavaScript object. */
  predicate DistinctKeys(r: FlatRecord) {
    forall i, j :: 0 <= i < j < |r| ==> r[i].0 != r[j].0
  }

  /** `r[key]`, absent when the object has no such property. */
  function Lookup(r: FlatRecord, key: string): (v: Option<string>)
    ensures v.Some? <==> key in Keys(r)
    ensures v.Some? ==> (key, v.value) in r
  {
    if |r| == 0 then None
    else if r[0].0 == key then Some(r[0].1)
    else
      assert Keys(r) == [r[0].0] + Keys(r[1..]);
      Lookup(r[1..], key)
  }

  /** `r[key] = value`: an existing property is overwritten where it stands, a new one is appended. */
  function Put(r: FlatRecord, key: string, value: string): FlatRecord {
    if |r| == 0 then [(key, value)]
    else if r[0].0 == key then [(key, value)] + r[1..]
    else [r[0]] + Put(r[1..], key, value)
  }

  /** After `r[key] = value`, `key` reads `value` and every other key reads as before. */
  lemma {:induction false} PutLookup(r: FlatRecord, key: string, value: string)
    ensures Lookup(Put(r, key, value), key) == Some(value)
    ensures forall k :: k != key ==> Lookup(Put(r, key, value), k) == Lookup(r, k)
  {
    if |r| > 0 && r[0].0 != key {
      PutLookup(r[1..], key, value);
      var p := Put(r, key, value);
      assert p[1..] == Put(r[1..], key, value);
    } else if |r| > 0 {
      var p := Put(r, key, value);
      assert p[1..] == r[1..];
    }
  }

  /** The keys of a record with one more property in front. */
  lemma KeysCons(x: (string, string), rest: FlatRecord)
    ensures Keys([x] + rest) == [x.0] + Keys(rest)
  {
  }

  /** Assignment keeps the key order: an existing key stays where it is, a new key goes last. */
  lemma {:induction false} PutKeys(r: FlatRecord, key: string, value: string)
    ensures Keys(Put(r, key, value)) == if key in Keys(r) then Keys(r) else Keys(r) + [key]
  {
    if |r| > 0 {
      assert r == [r[0]] + r[1..];
      KeysCons(r[0], r[1..]);
      if r[0].0 != key {
        PutKeys(r[1..], key, value);
        KeysCons(r[0], Put(r[1..], key, value));
        assert key in Keys(r) <==> key in Keys(r[1..]);
      } else {
        KeysCons((key, value), r[1..]);
      }
    }
  }

  /** Assignment never duplicates a key. */
  lemma PutDistinct(r: FlatRecord, key: string, value: string)
    requires DistinctKeys(r)
    ensures DistinctKeys(Put(r, key, value))
  {
    var p := Put(r, key, value);
    PutKeys(r, key, value);
    forall i, j | 0 <= i < j < |p|
      ensures p[i].0 != p[j].0
    {
      assert Keys(p)[i] == p[i].0 && Keys(p)[j] == p[j].0;
      if key !in Keys(r) && j == |r| {
        assert Keys(r)[i] == r[i].0;
      } else {
        assert Keys(r)[i] == r[i].0 && Keys(r)[j] == r[j].0;
      }
    }
  }

  /** A fresh key is simply appended. */
  lemma {:induction false} PutFresh(r: FlatRecord, key: string, value: string)
    requires key !in Keys(r)
    ensures Put(r, key, value) == r + [(key, value)]
  {
    if |r| > 0 {
      assert r == [r[0]] + r[1..];
      KeysCons(r[0], r[1..]);
      PutFresh(r[1..], key, value);
      assert r + [(key, value)] == [r[0]] + (r[1..] + [(key, value)]);
    }
  }

  /** Assigning the same value twice is the same as assigning it once. */
  lemma {:induction false} PutTwice(r: FlatRecord, key: string, value: string)
    ensures Put(Put(r, key, value), key, value) == Put(r, key, value)
  {
    if |r| > 0 && r[0].0 != key {
      PutTwice(r[1..], key, value);
    }
  }

  /** The assignments the flattening loop makes for one field, in order. */
  function FieldWrites(key: string, value: RawValue): (w: seq<(string, string)>)
    ensures value.Scalar? ==> w == [(key, value.text)]
    ensures value.Nested? ==> |w| == |value.children|
    ensures value.Nested? ==> forall c :: 0 <= c < |w| ==>
      w[c] == (key + "_" + value.children[c].0, value.children[c].1)
  {
    match value
    case Scalar(text) => [(key, text)]
    case Nested(children) =>
      seq(|children|, c requires 0 <= c < |children| => (key + "_" + children[c].0, children[c].1))
  }

  /** All the assignments the flattening loop makes for one row, in order. */
  function Writes(raw: RawRecord): seq<(string, string)> {
    if raw == [] then []
    else Writes(raw[..|raw| - 1]) + FieldWrites(raw[|raw| - 1].0, raw[|raw| - 1].1)
  }

  /** Performs the assignments `writes`, in order, on `r`. */
  function PutAll(r: FlatRecord, writes: seq<(string, string)>): FlatRecord {
    if writes == [] then r
    else Put(PutAll(r, writes[..|writes| - 1]), writes[|writes| - 1].0, writes[|writes| - 1].1)
  }

  /** The value of the last assignment to `key` in `writes`, if any. */
  function LastWrite(writes: seq<(string, string)>, key: string): (v: Option<string>)
    ensures v.Some? <==> exists j :: 0 <= j < |writes| && writes[j].0 == key
  {
    if writes == [] then None
    else if writes[|writes| - 1].0 == key then Some(writes[|writes| - 1].1)
    else LastWrite(writes[..|writes| - 1], key)
  }

  /** The flattened form of one fetched row, before its `RecordURL` is added. */
  function Flatten(raw: RawRecord): FlatRecord {
    PutAll([], Writes(raw))
  }

  /** Every key of a row yields its write: a scalar keeps its key, a child of an object field gets `key_childKey`. */
  lemma {:induction false} WritesOfRow(raw: RawRecord, key: string, value: string)
    ensures (key, value) in Writes(raw) <==>
      exists i :: 0 <= i < |raw| && (key, value) in FieldWrites(raw[i].0, raw[i].1)
  {
    if raw != [] {
      var init := raw[..|raw| - 1];
      WritesOfRow(init, key, value);
      assert forall i :: 0 <= i < |init| ==> init[i] == raw[i];
      if (key, value) in FieldWrites(raw[|raw| - 1].0, raw[|raw| - 1].1) {
        assert (key, value) in Writes(raw);
      }
    }
  }

  /** Each property of a flattened record holds the last value written to it. */
  lemma {:induction false} PutAllLookup(r: FlatRecord, writes: seq<(string, string)>, key: string)
    ensures Lookup(PutAll(r, writes), key) ==
      if LastWrite(writes, key).Some? then LastWrite(writes, key) else Lookup(r, key)
  {
    if writes != [] {
      var n := |writes| - 1;
      PutAllLookup(r, writes[..n], key);
      PutLookup(PutAll(r, writes[..n]), writes[n].0, writes[n].1);
    }
  }

  /** Flattening never produces two properties with one key. */
  lemma {:induction false} PutAllDistinct(r: FlatRecord, writes: seq<(string, string)>)
    requires DistinctKeys(r)
    ensures DistinctKeys(PutAll(r, writes))
  {
    if writes != [] {
      var n := |writes| - 1;
      PutAllDistinct(r, writes[..n]);
      PutDistinct(PutAll(r, writes[..n]), writes[n].0, writes[n].1);
    }
  }

  /** When no two writes share a key, the flattened record is exactly the writes, in order. */
  lemma {:induction false} PutAllWithoutCollisions(writes: seq<(string, string)>)
    requires DistinctKeys(writes)
    ensures PutAll([], writes) == writes
  {
    if writes != [] {
      var n := |writes| - 1;
      PutAllWithoutCollisions(writes[..n]);
      assert Keys(writes[..n]) == seq(n, i requires 0 <= i < n => writes[i].0);
      PutFresh(writes[..n], writes[n].0, writes[n].1);
      assert writes[..n] + [writes[n]] == writes;
    }
  }

  /**
   * The meaning of flattening a row: the record has one property per key
   * written, holding the last value written to it; without key collisions it
   * is exactly the row's writes in order.
   */
  lemma FlattenMeaning(raw: RawRecord, key: string)
    ensures DistinctKeys(Flatten(raw))
    ensures Lookup(Flatten(raw), key) == LastWrite(Writes(raw), key)
    ensures DistinctKeys(Writes(raw)) ==> Flatten(raw) == Writes(raw)
  {
    PutAllDistinct([], Writes(raw));
    PutAllLookup([], Writes(raw), key);
    if DistinctKeys(Writes(raw)) {
      PutAllWithoutCollisions(Writes(raw));
    }
  }

  /** `"/" + item["Id"]`, where a missing `Id` reads as `undefined`. */
  function RecordURLOf(r: FlatRecord): string {
    "/" + Lookup(r, "Id").GetOr("undefined")
  }

  /** `item["RecordURL"] = "/" + item["Id"]` */
  function WithRecordURL(r: FlatRecord): FlatRecord {
    Put(r, "RecordURL", RecordURLOf(r))
  }

  /** The derived link reads `"/" + Id`, and no other property changes. */
  lemma RecordURLMeaning(r: FlatRecord)
    ensures Lookup(WithRecordURL(r), "RecordURL") == Some("/" + Lookup(r, "Id").GetOr("undefined"))
    ensures forall k :: k != "RecordURL" ==> Lookup(WithRecordURL(r), k) == Lookup(r, k)
  {
    PutLookup(r, "RecordURL", RecordURLOf(r));
  }

  /** Re-deriving the link, as the loop does for every earlier row on each pass, changes nothing. */
  lemma RecordURLIdempotent(r: FlatRecord)
    ensures WithRecordURL(WithRecordURL(r)) == WithRecordURL(r)
  {
    RecordURLMeaning(r);
    assert RecordURLOf(WithRecordURL(r)) == RecordURLOf(r);
    PutTwice(r, "RecordURL", RecordURLOf(r));
  }

  /** One more field of a row gives its writes after the others. */
  lemma WritesSnoc(raw: RawRecord, key: string, value: RawValue)
    ensures Writes(raw + [(key, value)]) == Writes(raw) + FieldWrites(key, value)
  {
    assert (raw + [(key, value)])[..|raw|] == raw;
  }

  /** One more assignment after a batch. */
  lemma PutAllSnoc(r: FlatRecord, writes: seq<(string, string)>, key: string, value: string)
    ensures PutAll(r, writes + [(key, value)]) == Put(PutAll(r, writes), key, value)
  {
    assert (writes + [(key, value)])[..|writes|] == writes;
  }

  /** Two batches of assignments in a row are one batch. */
  lemma {:induction false} PutAllAppend(r: FlatRecord, first: seq<(string, string)>, second: seq<(string, string)>)
    ensures PutAll(r, first + second) == PutAll(PutAll(r, first), second)
    decreases |second|
  {
    if second == [] {
      assert first + second == first;
    } else {
      var n := |second| - 1;
      PutAllAppend(r, first, second[..n]);
      assert (first + second)[..|first| + n] == first + second[..n];
    }
  }

  /** No child written yet, or all of them. */
  lemma ChildPrefix(start: FlatRecord, key: string, children: seq<(string, string)>, c: nat)
    requires c == 0 || c == |children|
    ensures c == 0 ==> PutAll(start, FieldWrites(key, Nested(children))[..c]) == start
    ensures c == |children| ==> FieldWrites(key, Nested(children))[..c] == FieldWrites(key, Nested(children))
  {
    if c == 0 {
      assert FieldWrites(key, Nested(children))[..0] == [];
    }
  }

  /** Writing child `c` of an object field extends the writes done so far by one. */
  lemma ChildStep(start: FlatRecord, key: string, children: seq<(string, string)>, c: nat)
    requires c < |children|
    ensures PutAll(start, FieldWrites(key, Nested(children))[..c + 1])
         == Put(PutAll(start, FieldWrites(key, Nested(children))[..c]), key + "_" + children[c].0, children[c].1)
  {
    var writes := FieldWrites(key, Nested(children));
    assert writes[c] == (key + "_" + children[c].0, children[c].1);
    assert writes[..c + 1] == writes[..c] + [writes[c]];
    PutAllSnoc(start, writes[..c], writes[c].0, writes[c].1);
  }

  /** A scalar field is a single write. */
  lemma ScalarStep(start: FlatRecord, key: string, text: string)
    ensures PutAll(start, FieldWrites(key, Scalar(text))) == Put(start, key, text)
  {
    PutAllSnoc(start, [], key, text);
    assert [] + [(key, text)] == FieldWrites(key, Scalar(text));
  }

  /** Flattening one more field of a row applies that field's writes after the others. */
  lemma FlattenStep(record: RawRecord, j: nat)
    requires j < |record|
    ensures PutAll([], Writes(record[..j + 1]))
         == PutAll(PutAll([], Writes(record[..j])), FieldWrites(record[j].0, record[j].1))
  {
    assert record[..j + 1] == record[..j] + [(record[j].0, record[j].1)];
    WritesSnoc(record[..j], record[j].0, record[j].1);
    PutAllAppend([], Writes(record[..j]), FieldWrites(record[j].0, record[j].1));
  }

  /**
   * The body of the property loop of `doSearch` for one field: the children
   * of an object field are copied under `key_childKey`, in order; a scalar
   * is copied under its own key.
   */
  method FlattenField(compatible: FlatRecord, key: string, value: RawValue) returns (updated: FlatRecord)
    ensures updated == PutAll(compatible, FieldWrites(key, value))
  {
    updated := compatible;
    if value.Nested? {
      var children := value.children;
      var c := 0;
      ChildPrefix(compatible, key, children, 0);
      while c < |children|
        invariant 0 <= c <= |children|
        invariant updated == PutAll(compatible, FieldWrites(key, value)[..c])
      {
        ChildStep(compatible, key, children, c);
        updated := Put(updated, key + "_" + children[c].0, children[c].1);
        c := c + 1;
      }
      ChildPrefix(compatible, key, children, c);
    } else {
      ScalarStep(compatible, key, value.text);
      updated := Put(updated, key, value.text);
    }
  }

  /** The property loop of `doSearch`: one fetched row, flattened one level deep. */
  method FlattenRow(record: RawRecord) returns (compatible: FlatRecord)
    ensures compatible == Flatten(record)
  {
    compatible := [];
    var j := 0;
    while j < |record|
      invariant 0 <= j <= |record|
      invariant compatible == PutAll([], Writes(record[..j]))
    {
      compatible := FlattenField(compatible, record[j].0, record[j].1);
      FlattenStep(record, j);
      j := j + 1;
    }
    assert record[..j] == record;
  }

  /**
   * The `then` branch of `doSearch` turning the fetched rows into table rows:
   * each row is flattened and appended, and then every row so far gets its
   * `RecordURL`.
   */
  method FlattenResult(result: seq<RawRecord>) returns (all: seq<FlatRecord>)
    ensures |all| == |result|
    ensures forall i :: 0 <= i < |result| ==> all[i] == WithRecordURL(Flatten(result[i]))
  {
    all := [];
    var index := 0;
    while index < |result|
      invariant 0 <= index <= |result|
      invariant |all| == index
      invariant forall i :: 0 <= i < index ==> all[i] == WithRecordURL(Flatten(result[i]))
    {
      var compatible := FlattenRow(result[index]);
      all := all + [compatible];
      var k := 0;
      while k < |all|
        invariant 0 <= k <= |all| == index + 1
        invariant forall i :: 0 <= i < index ==> all[i] == WithRecordURL(Flatten(result[i]))
        invariant all[index] == if k > index then WithRecordURL(Flatten(result[index])) else Flatten(result[index])
      {
        if k < index {
          RecordURLIdempotent(Flatten(result[k]));
        }
        all := all[k := WithRecordURL(all[k])];
        k := k + 1;
      }
      index := index + 1;
    }
  }
}
