/**
 * The search panel: the filter inputs, the filter expression composed from
 * them and the default criteria
 * (force-app/main/default/lwc/searchListCmp/searchListCmp.js).
 */
module SearchPanel {
  import opened Wrappers
  import opened Strings

  /** An input counts when it is neither null, undefined nor `""`. */
  predicate IsPresent(v: Option<string>) {
    v.Some? && v.value != ""
  }

  /** `IsPresent` is the component's test `!(v == null || v == "" || v == undefined)`. */
  lemma PresentIff(v: Option<string>)
    ensures IsPresent(v) <==> !(v == None || v == Some(""))
  {
  }

  /**
   * Each clause is a fixed text, the input as typed and a closing text; an
   * input that is not present contributes nothing.
   */
  const SearchTextOpen := " AND Name LIKE '%"
  const SearchTextClose := "%'"
  const IndustryOpen := " AND Industry = '"
  const IndustryClose := "'"
  /** Note the two spaces before `>=`, as the component writes them. */
  const FromDateOpen := " AND CreatedDate  >= "
  const ToDateOpen := " AND CreatedDate <= "

  function Clause(v: Option<string>, open: string, close: string): (c: string)
    ensures IsPresent(v) ==> |c| == |open| + |v.value| + |close|
  {
    if IsPresent(v) then open + v.value + close else ""
  }

  /**
   * The filter expression: the base filter followed by one clause per present
   * input, in the fixed order search text, industry, from date, to date.
   */
  function FilterExpression(base: string, searchText: Option<string>, industry: Option<string>,
                            fromDate: Option<string>, toDate: Option<string>): string
  {
    base
    + Clause(searchText, SearchTextOpen, SearchTextClose)
    + Clause(industry, IndustryOpen, IndustryClose)
    + Clause(fromDate, FromDateOpen, "")
    + Clause(toDate, ToDateOpen, "")
  }

  /** Appending one input's clause text, when the input is present, appends its `Clause`. */
  lemma AppendClause(acc: string, v: Option<string>, open: string, close: string)
    ensures (if IsPresent(v) then acc + open + v.value + close else acc) == acc + Clause(v, open, close)
  {
    if IsPresent(v) {
      assert acc + open + v.value + close == acc + (open + v.value + close);
    } else {
      assert acc + "" == acc;
    }
  }

  /** The expression always starts with the base filter. */
  lemma FilterStartsWithBase(base: string, searchText: Option<string>, industry: Option<string>,
                             fromDate: Option<string>, toDate: Option<string>)
    ensures StartsWith(FilterExpression(base, searchText, industry, fromDate, toDate), base)
  {
    var e := FilterExpression(base, searchText, industry, fromDate, toDate);
    assert e[..|base|] == base;
  }

  /** The expression is the bare base filter exactly when all four inputs are empty. */
  lemma FilterIsBaseIffNoInput(base: string, searchText: Option<string>, industry: Option<string>,
                               fromDate: Option<string>, toDate: Option<string>)
    ensures FilterExpression(base, searchText, industry, fromDate, toDate) == base
      <==> !IsPresent(searchText) && !IsPresent(industry) && !IsPresent(fromDate) && !IsPresent(toDate)
  {
    var e := FilterExpression(base, searchText, industry, fromDate, toDate);
    assert |e| == |base| + |Clause(searchText, SearchTextOpen, SearchTextClose)|
      + |Clause(industry, IndustryOpen, IndustryClose)|
      + |Clause(fromDate, FromDateOpen, "")| + |Clause(toDate, ToDateOpen, "")|;
  }

  /** With the inputs as the defaults clear them, the expression is the base filter alone. */
  lemma ClearedIsBase(base: string)
    ensures FilterExpression(base, None, Some(""), None, None) == base
  {
    assert base + "" + "" + "" + "" == base;
  }

  /** A present input sits right after its clause's opening text. */
  lemma ClauseIn(before: string, v: Option<string>, open: string, close: string, after: string)
    requires IsPresent(v)
    ensures OccursAt(before + Clause(v, open, close) + after, v.value, |before| + |open|)
    ensures Contains(before + Clause(v, open, close) + after, v.value)
  {
    var s := before + Clause(v, open, close) + after;
    assert s == (before + open) + v.value + (close + after);
    assert s[|before| + |open|..|before| + |open| + |v.value|] == v.value;
    ContainsPart(before + open, v.value, close + after);
  }

  /** The ways of grouping the base and the four clauses around one of the clauses. */
  lemma Regroup(b: string, s: string, i: string, f: string, t: string)
    ensures b + s + i + f + t == b + s + (i + f + t)
    ensures b + s + i + f + t == (b + s) + i + (f + t)
    ensures b + s + i + f + t == (b + s + i) + f + t
    ensures b + s + i + f + t == (b + s + i + f) + t + ""
  {
  }

  /**
   * The inputs are inserted verbatim, without escaping: every present input
   * appears unmodified in the expression, the search text right after the
   * base filter and `" AND Name LIKE '%"`.
   */
  lemma InputsVerbatim(base: string, searchText: Option<string>, industry: Option<string>,
                       fromDate: Option<string>, toDate: Option<string>)
    ensures var e := FilterExpression(base, searchText, industry, fromDate, toDate);
      && (IsPresent(searchText) ==> OccursAt(e, searchText.value, |base| + 17))
      && (IsPresent(industry) ==> Contains(e, industry.value))
      && (IsPresent(fromDate) ==> Contains(e, fromDate.value))
      && (IsPresent(toDate) ==> Contains(e, toDate.value))
  {
    var s := Clause(searchText, SearchTextOpen, SearchTextClose);
    var i := Clause(industry, IndustryOpen, IndustryClose);
    var f := Clause(fromDate, FromDateOpen, "");
    var t := Clause(toDate, ToDateOpen, "");
    Regroup(base, s, i, f, t);
    if IsPresent(searchText) {
      ClauseIn(base, searchText, SearchTextOpen, SearchTextClose, i + f + t);
    }
    if IsPresent(industry) {
      ClauseIn(base + s, industry, IndustryOpen, IndustryClose, f + t);
    }
    if IsPresent(fromDate) {
      ClauseIn(base + s + i, fromDate, FromDateOpen, "", t);
    }
    if IsPresent(toDate) {
      ClauseIn(base + s + i + f, toDate, ToDateOpen, "", "");
    }
  }

  /**
   * Because nothing is escaped, different inputs can compose the same
   * expression: a from date `d1` followed by its own `AND CreatedDate <=`
   * clause and `d2` reads as the date range from `d1` to `d2`.
   */
  lemma FilterNotInjective(base: string, searchText: Option<string>, industry: Option<string>, d1: string, d2: string)
    requires d1 != "" && d2 != ""
    ensures Some(d1 + ToDateOpen + d2) != Some(d1)
    ensures FilterExpression(base, searchText, industry, Some(d1 + ToDateOpen + d2), None)
         == FilterExpression(base, searchText, industry, Some(d1), Some(d2))
  {
    var prefix := base + Clause(searchText, SearchTextOpen, SearchTextClose) + Clause(industry, IndustryOpen, IndustryClose);
    assert |d1 + ToDateOpen + d2| > |d1|;
    assert Clause(Some(d1 + ToDateOpen + d2), FromDateOpen, "") == FromDateOpen + d1 + ToDateOpen + d2 + "";
    assert Clause(Some(d1), FromDateOpen, "") + Clause(Some(d2), ToDateOpen, "") == FromDateOpen + d1 + "" + (ToDateOpen + d2 + "");
    Regroup(prefix, FromDateOpen, d1, ToDateOpen, d2);
  }

  /** The criteria `defaultValues` restores: the object, its queried fields and the base filter. */
  const DefaultObjectName := "Account"
  const DefaultFieldNames := "Name, Industry, Phone, CreatedDate"
  const DefaultBaseFilter := "Id != NULL"

  class SearchPanel {
    var objectNameToSend: string
    var fieldNamesToSend: string
    var defaultFilter: string
    var filtersToSend: string
    var recordsPerPageToSend: int
    var disableSortToSend: bool
    var disableSearchToSend: bool
    var searchText: Option<string>
    var industryValue: Option<string>
    var fromDate: Option<string>
    var toDate: Option<string>
    var showTable: bool

    /** The expression the current inputs compose. */
    function Filter(): string
      reads this
    {
      FilterExpression(defaultFilter, searchText, industryValue, fromDate, toDate)
    }

    /** The expression sent is always the one the current inputs compose. */
    ghost predicate Valid()
      reads this
    {
      defaultFilter == DefaultBaseFilter && filtersToSend == Filter()
    }

    /** The default criteria, with all four inputs cleared. */
    ghost predicate HasDefaults()
      reads this
    {
      && objectNameToSend == DefaultObjectName
      && fieldNamesToSend == DefaultFieldNames
      && defaultFilter == DefaultBaseFilter
      && filtersToSend == DefaultBaseFilter
      && recordsPerPageToSend == 200
      && disableSortToSend && disableSearchToSend
      && searchText == None && industryValue == Some("") && fromDate == None && toDate == None
      && showTable
    }

    /** `connectedCallback`: starts from the default criteria. */
    constructor ()
      ensures Valid() && HasDefaults()
    {
      new;
      DefaultValues();
    }

    /** `defaultValues`: restores the default criteria and clears the inputs. */
    method DefaultValues()
      modifies this
      ensures Valid() && HasDefaults()
    {
      ClearedIsBase(DefaultBaseFilter);
      objectNameToSend := DefaultObjectName;
      fieldNamesToSend := DefaultFieldNames;
      defaultFilter := DefaultBaseFilter;
      filtersToSend := defaultFilter;
      recordsPerPageToSend := 200;
      disableSortToSend := true;
      disableSearchToSend := true;
      searchText := None;
      industryValue := Some("");
      fromDate := None;
      toDate := None;
      showTable := true;
    }

    /**
     * `handleFilterChange`: rebuilds the expression from the base filter by
     * appending a clause for each present input, in the fixed order; the
     * previous expression plays no part. The component appends to the field
     * itself; nothing runs between the appends, so the text is built here
     * and stored once.
     */
    method HandleFilterChange()
      modifies this`filtersToSend
      ensures filtersToSend == Filter()
    {
      ghost var search, industry := Clause(searchText, SearchTextOpen, SearchTextClose), Clause(industryValue, IndustryOpen, IndustryClose);
      ghost var from, to := Clause(fromDate, FromDateOpen, ""), Clause(toDate, ToDateOpen, "");
      PresentIff(searchText);
      PresentIff(industryValue);
      PresentIff(fromDate);
      PresentIff(toDate);
      var filter := defaultFilter;
      ghost var before := filter;
      AppendClause(filter, searchText, SearchTextOpen, SearchTextClose);
      if !(searchText == None || searchText == Some("")) {
        filter := filter + " AND Name LIKE '%" + searchText.value + "%'";
      }
      assert filter == before + search;
      before := filter;
      AppendClause(filter, industryValue, IndustryOpen, IndustryClose);
      if !(industryValue == None || industryValue == Some("")) {
        filter := filter + " AND Industry = '" + industryValue.value + "'";
      }
      assert filter == before + industry;
      before := filter;
      AppendClause(filter, fromDate, FromDateOpen, "");
      if !(fromDate == None || fromDate == Some("")) {
        filter := filter + " AND CreatedDate  >= " + fromDate.value;
      }
      assert filter == before + from;
      before := filter;
      AppendClause(filter, toDate, ToDateOpen, "");
      if !(toDate == None || toDate == Some("")) {
        filter := filter + " AND CreatedDate <= " + toDate.value;
      }
      assert filter == before + to;
      filtersToSend := filter;
    }

    /** `handleSearchTextChange`: stores the search text, then recomputes the expression. */
    method HandleSearchTextChange(value: Option<string>)
      requires Valid()
      modifies this`searchText, this`filtersToSend
      ensures searchText == value && Valid()
    {
      searchText := value;
      HandleFilterChange();
    }

    /** `handleTypeChange`: stores the industry, then recomputes the expression. */
    method HandleTypeChange(value: Option<string>)
      requires Valid()
      modifies this`industryValue, this`filtersToSend
      ensures industryValue == value && Valid()
    {
      industryValue := value;
      HandleFilterChange();
    }

    /** `handleFromDateChange`: stores the from date, then recomputes the expression. */
    method HandleFromDateChange(value: Option<string>)
      requires Valid()
      modifies this`fromDate, this`filtersToSend
      ensures fromDate == value && Valid()
    {
      fromDate := value;
      HandleFilterChange();
    }

    /** `handleToDateChange`: stores the to date, then recomputes the expression. */
    method HandleToDateChange(value: Option<string>)
      requires Valid()
      modifies this`toDate, this`filtersToSend
      ensures toDate == value && Valid()
    {
      toDate := value;
      HandleFilterChange();
    }

    /** `handleSearch`, without the call into the table: shows the table. */
    method HandleSearch()
      modifies this`showTable
      ensures showTable
    {
      showTable := true;
    }

    /** `handleReset`, without clearing the input elements: restores the defaults and searches again. */
    method HandleReset()
      modifies this
      ensures Valid() && HasDefaults()
    {
      DefaultValues();
      HandleSearch();
    }
  }
}
