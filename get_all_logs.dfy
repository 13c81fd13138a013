/**
 * getAllLogs (src/lib/actions/getAllLogs.ts): one page of the signed-in
 * user's stopped activities, optionally narrowed by a case-insensitive search
 * on category or description, ordered by start time, with the match count and
 * the number of pages. The two database queries become a filter, a stable
 * sort and a slice over the rows of the store.
 */
module GetAllLogs {
  import opened Wrappers
  import opened JsString
  import opened Sorting

  type UserId = string

  /** The `Sort` enumeration. */
  datatype SortOrder = Desc | Asc

  /** A row of the history table, with the `category` and `status` columns this query reads. */
  datatype HistoryLog = HistoryLog(
    id: nat,
    userId: UserId,
    category: string,
    description: Option<string>,
    status: Option<string>,
    startedAt: int,
    finishedAt: Option<int>)

  /** The optional arguments; an absent one takes its default. */
  datatype Params = Params(sort: Option<SortOrder>, page: Option<int>, limit: Option<int>, search: Option<string>)

  /** The result object. */
  datatype Response = Response(logs: seq<HistoryLog>, total: nat, page: int, totalPages: int)

  const STOPPED: string := "Stopped"
  const DEFAULT_PAGE: int := 1
  const DEFAULT_LIMIT: int := 20
  /** The thrown message: the inner error wrapped by the catch block's template. */
  const NOT_LOGGED_IN: string := "Error occurred while getting all logs: Error: User must be logged in to get logs"

  function SortOf(p: Params): SortOrder { p.sort.GetOr(Desc) }
  function PageOf(p: Params): int { p.page.GetOr(DEFAULT_PAGE) }
  function LimitOf(p: Params): int { p.limit.GetOr(DEFAULT_LIMIT) }
  function SearchOf(p: Params): string { p.search.GetOr("") }

  /** `skip: (page - 1) * limit`, the number of rows before the page. */
  function SkipOf(p: Params): (skip: nat)
    requires PageOf(p) >= 1 && LimitOf(p) >= 1
    ensures skip == (PageOf(p) - 1) * LimitOf(p)
  {
    var pages: nat := PageOf(p) - 1;
    var limit: nat := LimitOf(p);
    pages * limit
  }

  /** The where clause: the user's stopped rows, and with a search the rows whose category or description contain it. */
  predicate Matches(log: HistoryLog, user: UserId, search: string) {
    log.userId == user && log.status == Some(STOPPED)
    && (search == ""
        || ContainsIgnoreCase(log.category, search)
        || (log.description.Some? && ContainsIgnoreCase(log.description.value, search)))
  }

  /** The sort key of `orderBy: { startedAt: sort }`; a descending order sorts by the negated time. */
  function OrderKey(sort: SortOrder): HistoryLog -> int {
    match sort
    case Asc => (l: HistoryLog) => l.startedAt
    case Desc => (l: HistoryLog) => -l.startedAt
  }

  /** All matching rows in the requested order (ties keep the store order). */
  function Ordered(rows: seq<HistoryLog>, user: UserId, search: string, sort: SortOrder): (r: seq<HistoryLog>)
    ensures multiset(r) == multiset(Filter(rows, (l: HistoryLog) => Matches(l, user, search)))
  {
    SortBy(Filter(rows, (l: HistoryLog) => Matches(l, user, search)), OrderKey(sort))
  }

  /** The matches are ordered by start time, ascending or descending as requested. */
  lemma {:induction false} OrderedSorted(rows: seq<HistoryLog>, user: UserId, search: string, sort: SortOrder)
    ensures var r := Ordered(rows, user, search, sort);
      (sort == Asc ==> forall i, j :: 0 <= i < j < |r| ==> r[i].startedAt <= r[j].startedAt)
      && (sort == Desc ==> forall i, j :: 0 <= i < j < |r| ==> r[i].startedAt >= r[j].startedAt)
  {
    var r := Ordered(rows, user, search, sort);
    assert forall i, j :: 0 <= i < j < |r| ==> OrderKey(sort)(r[i]) <= OrderKey(sort)(r[j]);
  }

  /** `skip` then `take`: the elements at positions skip .. skip + take - 1 that exist. */
  function SkipTake<T>(s: seq<T>, skip: nat, take: nat): (r: seq<T>)
    ensures |r| <= take
    ensures skip >= |s| ==> r == []
    ensures forall k :: 0 <= k < |r| ==> skip + k < |s| && r[k] == s[skip + k]
    ensures skip + take <= |s| ==> |r| == take
  {
    var lo := if skip < |s| then skip else |s|;
    var hi := if skip + take < |s| then skip + take else |s|;
    s[lo..hi]
  }

  /** `Math.ceil(total / limit)` for a positive limit. */
  function CeilDiv(total: nat, limit: int): (pages: nat)
    requires limit > 0
    ensures total == 0 <==> pages == 0
    ensures limit * pages >= total
    ensures pages > 0 ==> limit * (pages - 1) < total
  {
    (total + limit - 1) / limit
  }

  /**
   * getAllLogs over the store's rows. A negative skip is refused by the
   * database and a non-positive limit has no integral page count, so the page
   * and the limit, after their defaults, must be positive.
   */
  function GetAllLogs(rows: seq<HistoryLog>, session: Option<UserId>, p: Params): (r: Result<Response, string>)
    requires PageOf(p) >= 1 && LimitOf(p) >= 1
    ensures session.None? <==> r == Err(NOT_LOGGED_IN)
    ensures r.Ok? ==> |r.value.logs| <= LimitOf(p) && r.value.page == PageOf(p)
  {
    match session
    case None => Err(NOT_LOGGED_IN)
    case Some(user) =>
      var matching := Ordered(rows, user, SearchOf(p), SortOf(p));
      var limit := LimitOf(p);
      Ok(Response(SkipTake(matching, SkipOf(p), limit), |matching|, PageOf(p), CeilDiv(|matching|, limit)))
  }

  /** The ordered matches are exactly the matching rows: as many, and each one a matching row of the store. */
  lemma {:induction false} OrderedMembers(rows: seq<HistoryLog>, user: UserId, search: string, sort: SortOrder)
    ensures var matching := Ordered(rows, user, search, sort);
      |matching| == |Filter(rows, (l: HistoryLog) => Matches(l, user, search))|
      && forall k :: 0 <= k < |matching| ==> matching[k] in rows && Matches(matching[k], user, search)
  {
    var q := (l: HistoryLog) => Matches(l, user, search);
    var matching := Ordered(rows, user, search, sort);
    assert |matching| == |multiset(matching)| == |multiset(Filter(rows, q))| == |Filter(rows, q)|;
    forall k | 0 <= k < |matching| ensures matching[k] in rows && Matches(matching[k], user, search) {
      var x := matching[k];
      assert x in multiset(matching);
      assert x in Filter(rows, q);
    }
  }

  /**
   * What a page holds: the slice of the ordered matches that starts at
   * (page - 1) * limit, so every returned row is the user's, stopped and
   * matching the search; `total` counts all matches whatever the page, and
   * `totalPages` is the least number of pages of `limit` rows holding them.
   */
  lemma {:induction false} GetAllLogsPage(rows: seq<HistoryLog>, user: UserId, p: Params)
    requires PageOf(p) >= 1 && LimitOf(p) >= 1
    ensures var r := GetAllLogs(rows, Some(user), p).value;
      var matching := Ordered(rows, user, SearchOf(p), SortOf(p));
      var skip := SkipOf(p);
      r.total == |Filter(rows, (l: HistoryLog) => Matches(l, user, SearchOf(p)))|
      && r.logs == SkipTake(matching, skip, LimitOf(p))
      && (forall k :: 0 <= k < |r.logs| ==> r.logs[k] in rows && Matches(r.logs[k], user, SearchOf(p)))
      && LimitOf(p) * r.totalPages >= r.total
      && (r.totalPages > 0 ==> LimitOf(p) * (r.totalPages - 1) < r.total)
  {
    OrderedMembers(rows, user, SearchOf(p), SortOf(p));
    GetAllLogsOk(rows, user, p);
    SliceMembers(Ordered(rows, user, SearchOf(p), SortOf(p)), SkipOf(p), LimitOf(p), rows, (l: HistoryLog) => Matches(l, user, SearchOf(p)));
  }

  /** A slice of a sequence whose elements all lie in `rows` and satisfy `q` has the same two properties. */
  lemma {:induction false} SliceMembers<T>(s: seq<T>, skip: nat, take: nat, rows: seq<T>, q: T -> bool)
    requires forall k :: 0 <= k < |s| ==> s[k] in rows && q(s[k])
    ensures var page := SkipTake(s, skip, take);
      forall k :: 0 <= k < |page| ==> page[k] in rows && q(page[k])
  {
    var page := SkipTake(s, skip, take);
    forall k | 0 <= k < |page| ensures page[k] in rows && q(page[k]) {
      assert page[k] == s[skip + k];
    }
  }

  /** Only the page differs between two calls: `total` and `totalPages` stay the same. */
  lemma {:induction false} TotalIndependentOfPage(rows: seq<HistoryLog>, user: UserId, p: Params, page: int)
    requires PageOf(p) >= 1 && LimitOf(p) >= 1 && page >= 1
    ensures var a := GetAllLogs(rows, Some(user), p).value;
      var b := GetAllLogs(rows, Some(user), p.(page := Some(page))).value;
      a.total == b.total && a.totalPages == b.totalPages && b.page == page
  {
  }

  /**
   * The pages partition the matches: for a page number `page` and a position
   * `i` below the limit, the match at position (page - 1) * limit + i of the
   * ordered list, when there is one, is at position i of that page, and the
   * page is at most totalPages.
   */
  lemma {:induction false} PagesCoverMatches(rows: seq<HistoryLog>, user: UserId, p: Params, page: nat, i: nat)
    requires page >= 1 && i < LimitOf(p)
    requires (page - 1) * LimitOf(p) + i < |Ordered(rows, user, SearchOf(p), SortOf(p))|
    ensures var r := GetAllLogs(rows, Some(user), p.(page := Some(page))).value;
      page <= r.totalPages
      && i < |r.logs|
      && r.logs[i] == Ordered(rows, user, SearchOf(p), SortOf(p))[(page - 1) * LimitOf(p) + i]
  {
    var q := p.(page := Some(page));
    assert LimitOf(q) == LimitOf(p) && SearchOf(q) == SearchOf(p) && SortOf(q) == SortOf(p) && PageOf(q) == page;
    GetAllLogsOk(rows, user, q);
    PageHolds(Ordered(rows, user, SearchOf(p), SortOf(p)), LimitOf(p), page, i);
  }

  /** The response for a signed-in user, spelled out. */
  lemma {:induction false} GetAllLogsOk(rows: seq<HistoryLog>, user: UserId, p: Params)
    requires PageOf(p) >= 1 && LimitOf(p) >= 1
    ensures var matching := Ordered(rows, user, SearchOf(p), SortOf(p));
      GetAllLogs(rows, Some(user), p)
      == Ok(Response(SkipTake(matching, SkipOf(p), LimitOf(p)), |matching|, PageOf(p), CeilDiv(|matching|, LimitOf(p))))
  {
  }

  /** In any sequence of matches, position i of page `page` holds the match at (page - 1) * limit + i. */
  lemma {:induction false} PageHolds(matching: seq<HistoryLog>, limit: int, page: nat, i: nat)
    requires limit >= 1 && page >= 1 && i < limit && (page - 1) * limit + i < |matching|
    ensures var skip: nat := (page - 1) * limit;
      page <= CeilDiv(|matching|, limit)
      && i < |SkipTake(matching, skip, limit)| && SkipTake(matching, skip, limit)[i] == matching[skip + i]
  {
    var skip: nat := (page - 1) * limit;
    SkipTakeAt(matching, skip, limit, skip + i);
    PageWithinTotal(|matching|, limit, page, i);
  }

  /** A page that starts before the last match is counted by totalPages. */
  lemma {:induction false} PageWithinTotal(n: nat, limit: int, page: nat, i: nat)
    requires limit >= 1 && page >= 1 && (page - 1) * limit + i < n
    ensures page <= CeilDiv(n, limit)
  {
    var pages := CeilDiv(n, limit);
    if pages < page {
      MulMonotone(limit, pages, page - 1);
      assert false;
    }
  }

  /** Multiplying by a positive number keeps the order. */
  lemma {:induction false} MulMonotone(k: int, a: int, b: int)
    requires k > 0 && a <= b
    ensures k * a <= k * b
  {
  }

  /** The element at position k is in the slice starting at a skip at most k and within `take` of it. */
  lemma {:induction false} SkipTakeAt<T>(s: seq<T>, skip: nat, take: nat, k: nat)
    requires skip <= k < |s| && k < skip + take
    ensures k - skip < |SkipTake(s, skip, take)| && SkipTake(s, skip, take)[k - skip] == s[k]
  {
  }

  /** With no arguments the query is the first page of 20, newest first, without a search. */
  lemma {:induction false} DefaultParams(rows: seq<HistoryLog>, session: Option<UserId>)
    ensures GetAllLogs(rows, session, Params(None, None, None, None))
      == GetAllLogs(rows, session, Params(Some(Desc), Some(1), Some(20), Some("")))
    ensures session.Some? ==> GetAllLogs(rows, session, Params(None, None, None, None)).value.page == 1
  {
  }
}
