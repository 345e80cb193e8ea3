/**
 * The column list `connectedCallback` builds from the field metadata
 * (force-app/main/default/lwc/searchListDataTableWrapper/searchListDataTableWrapper.js).
 */
module Columns {
  import opened Wrappers
  import opened Strings

  /** The metadata of one queried field, as the metadata source returns it. */
  datatype FieldDetail = FieldDetail(fieldLabel: string, displayType: string, apiName: string, objectPluralName: string)

  /**
   * A column descriptor of the data table. `linkLabel` is the
   * `typeAttributes.label.fieldName` of a link column; `sortable` is false
   * where the source leaves it undefined.
   */
  datatype Column = Column(heading: string, fieldName: string, kind: string, sortable: bool, linkLabel: Option<string>)

  /** The first column: the record's `RecordURL`, shown as a link labelled with its `Name`. */
  const NameColumn := Column("Name", "RecordURL", "url", false, Some("Name"))

  /** The name field (already shown by the link column) and `PublishedTitle__c`, in any case, get no column of their own. */
  predicate IsSkipped(apiName: string) {
    Upper(apiName) == "NAME" || Upper(apiName) == "PUBLISHEDTITLE__C"
  }

  lemma NameCases()
    ensures Upper("name") == "NAME" && Lower("name") == "name"
  {
  }

  lemma TitleCases()
    ensures Upper("publishedtitle__c") == "PUBLISHEDTITLE__C"
    ensures Lower("publishedtitle__c") == "publishedtitle__c"
  {
  }

  /** The skip test ignores case: `Name`, `name` and `NAME` are all skipped. */
  lemma SkippedIgnoresCase(apiName: string)
    ensures IsSkipped(apiName) <==> Lower(apiName) == "name" || Lower(apiName) == "publishedtitle__c"
  {
    SameIgnoringCase(apiName, "name");
    SameIgnoringCase(apiName, "publishedtitle__c");
    NameCases();
    TitleCases();
  }

  /** The sortable column built for a field that is not skipped. */
  function ColumnFor(d: FieldDetail): Column {
    Column(d.fieldLabel, d.apiName, d.displayType, true, None)
  }

  /** The fields that get a column, in metadata order. */
  function Kept(details: seq<FieldDetail>): seq<FieldDetail> {
    if details == [] then []
    else
      var last := details[|details| - 1];
      Kept(details[..|details| - 1]) + (if IsSkipped(last.apiName) then [] else [last])
  }

  /** Keeping distributes over concatenation, so the kept fields stay in metadata order. */
  lemma KeptSnoc(details: seq<FieldDetail>, d: FieldDetail)
    ensures Kept(details + [d]) == Kept(details) + (if IsSkipped(d.apiName) then [] else [d])
  {
    assert (details + [d])[..|details|] == details;
  }

  lemma {:induction false} KeptAppend(details: seq<FieldDetail>, more: seq<FieldDetail>)
    ensures Kept(details + more) == Kept(details) + Kept(more)
    decreases |more|
  {
    if more == [] {
      assert details + more == details;
    } else {
      var n := |more| - 1;
      var last := more[n];
      KeptAppend(details, more[..n]);
      assert more == more[..n] + [last];
      assert details + more == (details + more[..n]) + [last];
      KeptSnoc(details + more[..n], last);
      KeptSnoc(more[..n], last);
    }
  }

  /** A field gets a column exactly when it is queried and not skipped. */
  lemma {:induction false} KeptMembers(details: seq<FieldDetail>, d: FieldDetail)
    ensures d in Kept(details) <==> d in details && !IsSkipped(d.apiName)
  {
    if details != [] {
      var n := |details| - 1;
      KeptMembers(details[..n], d);
      assert details == details[..n] + [details[n]];
    }
  }

  /**
   * The `then` branch of `connectedCallback`: the link column, then one
   * sortable column per non-skipped field, and the plural object name of the
   * last field that got a column.
   */
  method BuildColumns(details: seq<FieldDetail>) returns (columns: seq<Column>, pluralName: Option<string>)
    ensures |columns| == |Kept(details)| + 1 && columns[0] == NameColumn
    ensures forall i :: 0 <= i < |Kept(details)| ==> columns[i + 1] == ColumnFor(Kept(details)[i])
    ensures forall i :: 1 <= i < |columns| ==> columns[i].sortable && !IsSkipped(columns[i].fieldName)
    ensures pluralName == if Kept(details) == [] then None
                          else Some(Kept(details)[|Kept(details)| - 1].objectPluralName)
  {
    columns := [NameColumn];
    pluralName := None;
    var index := 0;
    while index < |details|
      invariant 0 <= index <= |details|
      invariant |columns| == |Kept(details[..index])| + 1 && columns[0] == NameColumn
      invariant forall i :: 0 <= i < |Kept(details[..index])| ==>
        columns[i + 1] == ColumnFor(Kept(details[..index])[i])
      invariant forall i :: 0 <= i < |Kept(details[..index])| ==> !IsSkipped(Kept(details[..index])[i].apiName)
      invariant pluralName == if Kept(details[..index]) == [] then None
                              else Some(Kept(details[..index])[|Kept(details[..index])| - 1].objectPluralName)
    {
      var d := details[index];
      assert details[..index + 1][..index] == details[..index];
      if !IsSkipped(d.apiName) {
        columns := columns + [ColumnFor(d)];
        pluralName := Some(d.objectPluralName);
      }
      index := index + 1;
    }
    assert details[..index] == details;
    forall i | 1 <= i < |columns|
      ensures columns[i].sortable && !IsSkipped(columns[i].fieldName)
    {
      assert columns[i] == ColumnFor(Kept(details)[i - 1]);
    }
  }
}
