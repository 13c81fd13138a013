/**
 * The history page (src/components/logs/history/historyPage.tsx): the query
 * state it keeps (sort, page, search and the search box), the pagination
 * buttons, and the update it sends for an edited log.
 */
module HistoryPage {
  import opened Wrappers
  import GetAllLogs
  import LogEdit
  import Domain

  /** The page size the history page asks for. */
  const LIMIT: int := 15

  /** The fields sent to updateLog for an edited log. */
  datatype HistoryUpdate = HistoryUpdate(
    id: nat,
    category: string,
    description: Option<string>,
    startedAt: int,
    finishedAt: Option<int>)

  /** `data?.totalPages || 1`: the page count shown, 1 while loading or when the response gives 0. */
  function ShownTotalPages(data: Option<GetAllLogs.Response>): (n: int)
    ensures data.None? ==> n == 1
    ensures data.Some? && data.value.totalPages != 0 ==> n == data.value.totalPages
    ensures data.Some? && data.value.totalPages >= 0 ==> n >= 1
  {
    if data.Some? && data.value.totalPages != 0 then data.value.totalPages else 1
  }

  /** `Math.max(1, p - 1)`: the page after Previous. */
  function PreviousPage(p: int): (r: int)
    ensures r >= 1
    ensures p > 1 ==> r == p - 1
    ensures p <= 1 ==> r == 1
  {
    if p - 1 > 1 then p - 1 else 1
  }

  /** `Math.min(totalPages, p + 1)`: the page after Next. */
  function NextPage(p: int, totalPages: int): (r: int)
    ensures r <= totalPages
    ensures p < totalPages ==> r == p + 1
    ensures p >= totalPages ==> r == totalPages
  {
    if totalPages < p + 1 then totalPages else p + 1
  }

  /**
   * Previous and Next keep the page within [1, totalPages]; on the first page
   * Previous, and on the last page Next, would leave it where it is, which is
   * also why the source disables those buttons there.
   */
  lemma {:induction false} PagingStaysInRange(p: int, totalPages: int)
    requires 1 <= p <= totalPages
    ensures 1 <= PreviousPage(p) <= totalPages && 1 <= NextPage(p, totalPages) <= totalPages
    ensures PreviousPage(p) <= p <= NextPage(p, totalPages)
    ensures p == 1 <==> PreviousPage(p) == p
    ensures p == totalPages <==> NextPage(p, totalPages) == p
  {
  }

  /** The page's query state. */
  class HistoryState {
    var sort: GetAllLogs.SortOrder
    var page: int
    var search: string
    var searchInput: string

    /** The initial state: newest first, page 1, no search. */
    constructor()
      ensures sort == GetAllLogs.Desc && page == 1 && search == "" && searchInput == ""
    {
      sort := GetAllLogs.Desc;
      page := 1;
      search := "";
      searchInput := "";
    }

    /** The arguments the query passes to getAllLogs. */
    function Query(): (p: GetAllLogs.Params)
      reads this
      ensures GetAllLogs.SortOf(p) == sort && GetAllLogs.PageOf(p) == page
      ensures GetAllLogs.LimitOf(p) == LIMIT && GetAllLogs.SearchOf(p) == search
    {
      GetAllLogs.Params(Some(sort), Some(page), Some(LIMIT), Some(search))
    }

    /** The state the page code keeps: a page of at least 1, so the query is always a valid one. */
    predicate Valid()
      reads this
    {
      page >= 1
    }

    /** handleSearch: submit the search box, back to page 1. */
    method HandleSearch()
      modifies this
      ensures search == old(searchInput) && page == 1
      ensures sort == old(sort) && searchInput == old(searchInput)
      ensures Valid()
    {
      search := searchInput;
      page := 1;
    }

    /** clearSearch: empty both the box and the search, back to page 1. */
    method ClearSearch()
      modifies this
      ensures searchInput == "" && search == "" && page == 1 && sort == old(sort)
      ensures Valid()
    {
      searchInput := "";
      search := "";
      page := 1;
    }

    /** The sort button: flip the direction, back to page 1. */
    method ToggleSort()
      modifies this
      ensures sort == (if old(sort) == GetAllLogs.Desc then GetAllLogs.Asc else GetAllLogs.Desc)
      ensures page == 1 && search == old(search) && searchInput == old(searchInput)
      ensures Valid()
    {
      sort := if sort == GetAllLogs.Desc then GetAllLogs.Asc else GetAllLogs.Desc;
      page := 1;
    }

    /** The Previous button. */
    method Previous()
      modifies this`page
      ensures page == PreviousPage(old(page))
      ensures Valid()
    {
      page := PreviousPage(page);
    }

    /** The Next button, with the page count shown. */
    method Next(totalPages: int)
      requires totalPages >= 1
      modifies this`page
      ensures page == NextPage(old(page), totalPages)
      ensures old(page) >= 1 ==> 1 <= page <= totalPages
    {
      page := NextPage(page, totalPages);
    }
  }

  /**
   * handleUpdateSubmit: nothing without a log being edited; otherwise the
   * log's id, the category and description fields (an empty description as
   * null) and the rewritten start and finish.
   */
  method HandleUpdateSubmit(logToEdit: Option<GetAllLogs.HistoryLog>, category: string, description: string,
                            startField: LogEdit.ClockField, finishField: LogEdit.ClockField)
    returns (update: Option<HistoryUpdate>)
    ensures logToEdit.None? <==> update.None?
    ensures update.Some? ==>
      update.value.id == logToEdit.value.id && update.value.category == category
      && update.value.description == LogEdit.NullIfEmpty(description)
      && (update.value.finishedAt.None? <==> finishField.None?)
      && (finishField.Some? ==>
            update.value.finishedAt.value == LogEdit.AtClock(logToEdit.value.finishedAt.GetOr(logToEdit.value.startedAt), finishField))
      && (var entered := LogEdit.AtClock(logToEdit.value.startedAt, startField);
          update.value.startedAt ==
            (if update.value.finishedAt.Some? && entered > update.value.finishedAt.value then entered - Domain.DAY_MS
             else entered))
      && ((LogEdit.IsClockTime(startField) && LogEdit.IsClockTime(finishField) && finishField.Some?
           && logToEdit.value.finishedAt.None?) ==> update.value.startedAt <= update.value.finishedAt.value)
  {
    if logToEdit.None? {
      return None;
    }
    var log := logToEdit.value;
    var newStartedAt, newFinishedAt := LogEdit.RewriteTimes(log.startedAt, log.finishedAt, startField, finishField);
    update := Some(HistoryUpdate(log.id, category, LogEdit.NullIfEmpty(description), newStartedAt, newFinishedAt));
  }
}
