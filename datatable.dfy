/**
 * The data-table component: its tracked fields and the handlers that update
 * them (force-app/main/default/lwc/searchListDataTableWrapper/searchListDataTableWrapper.js).
 * The two server calls are not part of this model: their outcomes are the
 * inputs of the `On...` methods, which are the `then` and `catch` branches.
 */
module DataTable {
  import opened Wrappers
  import opened Records
  import opened Columns
  import opened Sorting
  import opened TextSearch
  import opened Paging

  /** The `body` of a failed server call. */
  datatype ServerError = ServerError(exceptionType: string, message: string, stackTrace: string)

  /** The single message slot: container class, icon class, title, summary and icon name. */
  datatype PageMessage = PageMessage(
    parentDivClass: string,
    childDivClass: string,
    title: string,
    summary: string,
    icon: string)

  const WarningParentClass := "slds-notify slds-notify_alert slds-theme_alert-texture slds-theme_warning"
  const WarningChildClass := "slds-icon_container slds-icon-utility-warning slds-m-right_x-small"
  const ErrorParentClass := "slds-notify slds-notify_alert slds-theme_alert-texture slds-theme_error"
  const ErrorChildClass := "slds-icon_container slds-icon-utility-error slds-m-right_x-small"

  /** The informational message shown when a search finds nothing. */
  const NoRecordsMessage := PageMessage(WarningParentClass, WarningChildClass, "No Records", "No records found.", "utility:warning")

  /** The error message shown when a server call fails. */
  function ErrorMessage(e: ServerError): (m: PageMessage)
    ensures m.title == "Error" && m.icon == "utility:error" && m.parentDivClass == ErrorParentClass
    ensures m.summary == e.exceptionType + " " + e.message + " " + e.stackTrace
  {
    PageMessage(ErrorParentClass, ErrorChildClass, "Error", e.exceptionType + " " + e.message + " " + e.stackTrace, "utility:error")
  }

  class DataTableWrapper {
    var allRecords: Option<seq<FlatRecord>>
    var filteredRecords: Option<seq<FlatRecord>>
    var viewRecords: seq<FlatRecord>
    var columns: Option<seq<Column>>
    var defaultSortDirection: string
    var sortDirection: string
    var sortedBy: Option<string>
    var recordCount: int
    var hasRecords: bool
    var beginIndex: int
    var endIndex: int  // spelt `endndex` in the component
    var currentPage: int
    var totalPages: int
    var disableBack: bool
    var disableForward: bool
    var searchText: string
    var objectPluralName: string
    var recordsPerPage: int
    var error: Option<ServerError>
    var hasMessage: bool
    var message: PageMessage

    /** The fields pagination maintains, together. */
    function PageFields(): Page
      reads this
    {
      Page(recordCount, totalPages, beginIndex, endIndex, currentPage, viewRecords, disableBack, disableForward)
    }

    /** The page fields always describe the window that starts at `beginIndex - 1`. */
    ghost predicate Valid()
      reads this
    {
      && recordsPerPage > 0
      && (HasRows(filteredRecords) ==> beginIndex >= 1)
      && PageFields() == Paginate(filteredRecords, beginIndex - 1, recordsPerPage)
    }

    /** The component's initial field values; the page size is set by the panel. */
    constructor (perPage: int)
      requires perPage > 0
      ensures Valid()
      ensures allRecords == None && filteredRecords == None && columns == None && sortedBy == None
      ensures recordsPerPage == perPage && PageFields() == Page(0, 0, 0, 0, 0, [], true, true)
      ensures defaultSortDirection == "asc" && sortDirection == "asc" && searchText == "" && objectPluralName == ""
      ensures !hasRecords && !hasMessage && error == None && message == NoRecordsMessage
    {
      allRecords := None;
      filteredRecords := None;
      viewRecords := [];
      columns := None;
      defaultSortDirection := "asc";
      sortDirection := "asc";
      sortedBy := None;
      recordCount := 0;
      hasRecords := false;
      beginIndex := 0;
      endIndex := 0;
      currentPage := 0;
      totalPages := 0;
      disableBack := true;
      disableForward := true;
      searchText := "";
      objectPluralName := "";
      recordsPerPage := perPage;
      error := None;
      hasMessage := false;
      message := NoRecordsMessage;
    }

    /** `preparePageMessage`: fills the message slot. */
    method PreparePageMessage(parentDivClass: string, childDivClass: string, title: string, summary: string, icon: string)
      modifies this`message
      ensures message == PageMessage(parentDivClass, childDivClass, title, summary, icon)
    {
      message := PageMessage(parentDivClass, childDivClass, title, summary, icon);
    }

    /**
     * `renderButtons`. Back is disabled while `beginIndex <= recordsPerPage`,
     * the intended first-page test; the component writes `<`, which leaves
     * Back enabled on the first page when a page holds one record.
     */
    method RenderButtons()
      modifies this`disableBack, this`disableForward
      ensures disableBack == BackDisabled(beginIndex, recordsPerPage)
      ensures disableForward == (currentPage == totalPages)
    {
      if beginIndex <= recordsPerPage {
        disableBack := true;
      } else {
        disableBack := false;
      }
      if currentPage == totalPages {
        disableForward := true;
      } else {
        disableForward := false;
      }
    }

    /** `filterRecords(start)`: computes the window starting at `start`, its counters and the buttons. */
    method FilterRecords(start: int)
      requires recordsPerPage > 0
      requires HasRows(filteredRecords) ==> start >= 0
      modifies this`recordCount, this`totalPages, this`beginIndex, this`endIndex, this`currentPage
      modifies this`viewRecords, this`disableBack, this`disableForward
      ensures PageFields() == Paginate(filteredRecords, start, recordsPerPage)
      ensures Valid()
    {
      if filteredRecords.Some? && |filteredRecords.value| > 0 {
        var s := filteredRecords.value;
        recordCount := |s|;
        totalPages := CeilDiv(recordCount, recordsPerPage);
        var endingIndex := start + recordsPerPage;
        if endingIndex > recordCount {
          endingIndex := recordCount;
        }
        beginIndex := start + 1;
        endIndex := endingIndex;
        currentPage := CeilDiv(beginIndex, recordsPerPage);
        viewRecords := PageSlice(s, start, endingIndex);
        assert viewRecords == if start < endingIndex then s[start..endingIndex] else [];
      } else {
        recordCount := 0;
        totalPages := 0;
        currentPage := 0;
        beginIndex := 0;
        endIndex := 0;
        viewRecords := [];
      }
      RenderButtons();
    }

    /** `goToFirst`: re-pages at 0. */
    method GoToFirst()
      requires Valid()
      modifies this`recordCount, this`totalPages, this`beginIndex, this`endIndex, this`currentPage
      modifies this`viewRecords, this`disableBack, this`disableForward
      ensures PageFields() == Paginate(filteredRecords, 0, recordsPerPage)
      ensures Valid()
    {
      FilterRecords(0);
    }

    /** `goToPrevious`, reachable while Back is enabled: re-pages at `beginIndex - recordsPerPage - 1`. */
    method GoToPrevious()
      requires Valid() && !disableBack
      modifies this`recordCount, this`totalPages, this`beginIndex, this`endIndex, this`currentPage
      modifies this`viewRecords, this`disableBack, this`disableForward
      ensures PageFields() == Paginate(filteredRecords, old(beginIndex) - recordsPerPage - 1, recordsPerPage)
      ensures Valid()
    {
      var newIndex := beginIndex - recordsPerPage;
      newIndex := newIndex - 1;
      FilterRecords(newIndex);
    }

    /** `goToNext`: re-pages at `beginIndex + recordsPerPage - 1`. */
    method GoToNext()
      requires Valid()
      modifies this`recordCount, this`totalPages, this`beginIndex, this`endIndex, this`currentPage
      modifies this`viewRecords, this`disableBack, this`disableForward
      ensures PageFields() == Paginate(filteredRecords, old(beginIndex) + recordsPerPage - 1, recordsPerPage)
      ensures Valid()
    {
      var newIndex := beginIndex + recordsPerPage;
      newIndex := newIndex - 1;
      FilterRecords(newIndex);
    }

    /** `goToLast`: re-pages at `(totalPages - 1) * recordsPerPage`. */
    method GoToLast()
      requires Valid()
      modifies this`recordCount, this`totalPages, this`beginIndex, this`endIndex, this`currentPage
      modifies this`viewRecords, this`disableBack, this`disableForward
      ensures PageFields() == Paginate(filteredRecords, LastPageStart(old(totalPages), recordsPerPage), recordsPerPage)
      ensures Valid()
    {
      var newIndex := (totalPages - 1) * recordsPerPage;
      assert newIndex == LastPageStart(totalPages, recordsPerPage);
      FilterRecords(newIndex);
    }

    /**
     * `handleSearchText(value)`: with two or more characters the filtered
     * records are the matches among all records (none when there are no
     * records), otherwise all records again; then the first page is shown.
     */
    method HandleSearchText(value: string)
      requires Valid()
      modifies this`searchText, this`filteredRecords
      modifies this`recordCount, this`totalPages, this`beginIndex, this`endIndex, this`currentPage
      modifies this`viewRecords, this`disableBack, this`disableForward
      ensures searchText == value
      ensures filteredRecords == if |value| >= 2 then Some(Search(allRecords.GetOr([]), value)) else allRecords
      ensures PageFields() == Paginate(filteredRecords, 0, recordsPerPage)
      ensures Valid()
    {
      searchText := value;
      if |searchText| >= 2 {
        var filtered := MatchingRecords(allRecords.GetOr([]), searchText);
        filteredRecords := Some(filtered);
      } else {
        filteredRecords := allRecords;
      }
      FilterRecords(0);
    }

    /**
     * `onHandleSort(field, direction)`: the filtered records become a sorted
     * copy, a permutation of them ordered by the comparator; then the first
     * page is shown. Without filtered records the copy throws and nothing
     * changes.
     */
    method OnHandleSort(field: string, direction: string)
      requires Valid()
      modifies this`filteredRecords, this`sortDirection, this`sortedBy
      modifies this`recordCount, this`totalPages, this`beginIndex, this`endIndex, this`currentPage
      modifies this`viewRecords, this`disableBack, this`disableForward
      ensures old(filteredRecords).None? ==>
        && filteredRecords == None && sortDirection == old(sortDirection) && sortedBy == old(sortedBy)
        && PageFields() == old(PageFields())
      ensures old(filteredRecords).Some? ==>
        && filteredRecords == Some(SortBy(old(filteredRecords).value, field, ReverseOf(direction)))
        && multiset(filteredRecords.value) == multiset(old(filteredRecords).value)
        && Ordered(filteredRecords.value, field, ReverseOf(direction))
        && sortDirection == direction && sortedBy == Some(field)
        && PageFields() == Paginate(filteredRecords, 0, recordsPerPage)
      ensures Valid()
    {
      if filteredRecords.Some? {
        var cloneData := filteredRecords.value;
        cloneData := SortBy(cloneData, field, ReverseOf(direction));
        SortByMeaning(filteredRecords.value, field, ReverseOf(direction));
        filteredRecords := Some(cloneData);
        sortDirection := direction;
        sortedBy := Some(field);
        FilterRecords(0);
      }
    }

    /**
     * The `then` branch of `doSearch` once the rows are flattened: all and
     * filtered records become `all`, the No Records message is raised when
     * it is empty, and the first page is shown.
     */
    method ShowRecords(all: seq<FlatRecord>)
      requires Valid()
      modifies this`allRecords, this`filteredRecords, this`hasRecords, this`hasMessage, this`message
      modifies this`recordCount, this`totalPages, this`beginIndex, this`endIndex, this`currentPage
      modifies this`viewRecords, this`disableBack, this`disableForward
      ensures allRecords == Some(all) && filteredRecords == Some(all)
      ensures hasRecords == (|all| > 0) && hasMessage == !hasRecords
      ensures message == if hasRecords then old(message) else NoRecordsMessage
      ensures PageFields() == Paginate(filteredRecords, 0, recordsPerPage)
      ensures Valid()
    {
      allRecords := Some(all);
      filteredRecords := Some(all);
      if |all| > 0 {
        hasRecords := true;
        hasMessage := false;
      } else {
        hasRecords := false;
        hasMessage := true;
        var m := NoRecordsMessage;
        PreparePageMessage(m.parentDivClass, m.childDivClass, m.title, m.summary, m.icon);
      }
      FilterRecords(0);
    }

    /**
     * The `then` branch of `doSearch` for the fetched rows `result` (`None`
     * for a null result, which leaves everything but `error` as it was).
     */
    method OnRecordsFetched(result: Option<seq<RawRecord>>)
      requires Valid()
      modifies this`error, this`allRecords, this`filteredRecords, this`hasRecords, this`hasMessage, this`message
      modifies this`recordCount, this`totalPages, this`beginIndex, this`endIndex, this`currentPage
      modifies this`viewRecords, this`disableBack, this`disableForward
      ensures error == None
      ensures result.None? ==>
        && allRecords == old(allRecords) && filteredRecords == old(filteredRecords)
        && hasRecords == old(hasRecords) && hasMessage == old(hasMessage) && message == old(message)
        && PageFields() == old(PageFields())
      ensures result.Some? ==>
        && allRecords.Some? && filteredRecords == allRecords
        && |allRecords.value| == |result.value|
        && (forall i :: 0 <= i < |result.value| ==> allRecords.value[i] == WithRecordURL(Flatten(result.value[i])))
        && hasRecords == (|result.value| > 0) && hasMessage == !hasRecords
        && message == (if hasRecords then old(message) else NoRecordsMessage)
        && PageFields() == Paginate(filteredRecords, 0, recordsPerPage)
      ensures Valid()
    {
      error := None;
      if result.Some? {
        var all := FlattenResult(result.value);
        ShowRecords(all);
      }
    }

    /**
     * The `catch` branch of `doSearch`: the error is kept and shown, and all
     * records are dropped; the filtered records and the page are left as
     * they were, hidden behind the message.
     */
    method OnRecordsFailed(e: ServerError)
      requires Valid()
      modifies this`error, this`allRecords, this`hasRecords, this`hasMessage, this`message
      ensures error == Some(e) && allRecords == None && !hasRecords && hasMessage
      ensures message == ErrorMessage(e)
      ensures Valid()
    {
      error := Some(e);
      allRecords := None;
      hasRecords := false;
      hasMessage := true;
      var m := ErrorMessage(e);
      PreparePageMessage(m.parentDivClass, m.childDivClass, m.title, m.summary, m.icon);
    }

    /**
     * The `then` branch of `connectedCallback` for the field metadata
     * `result` (`None` for a null result, which changes nothing).
     */
    method OnFieldDetailsFetched(result: Option<seq<FieldDetail>>)
      modifies this`columns, this`objectPluralName, this`hasMessage
      ensures result.None? ==>
        columns == old(columns) && objectPluralName == old(objectPluralName) && hasMessage == old(hasMessage)
      ensures result.Some? ==>
        && columns.Some? && !hasMessage
        && |columns.value| == |Kept(result.value)| + 1 && columns.value[0] == NameColumn
        && (forall i :: 0 <= i < |Kept(result.value)| ==> columns.value[i + 1] == ColumnFor(Kept(result.value)[i]))
        && objectPluralName == if Kept(result.value) == [] then old(objectPluralName)
                               else Kept(result.value)[|Kept(result.value)| - 1].objectPluralName
    {
      if result.Some? {
        var built, pluralName := BuildColumns(result.value);
        if pluralName.Some? {
          objectPluralName := pluralName.value;
        }
        columns := Some(built);
        hasMessage := false;
      }
    }

    /** The `catch` branch of `connectedCallback`: the error is shown and there are no records to show. */
    method OnFieldDetailsFailed(e: ServerError)
      modifies this`hasMessage, this`hasRecords, this`message
      ensures hasMessage && !hasRecords && message == ErrorMessage(e)
    {
      hasMessage := true;
      hasRecords := false;
      var m := ErrorMessage(e);
      PreparePageMessage(m.parentDivClass, m.childDivClass, m.title, m.summary, m.icon);
    }
  }
}
