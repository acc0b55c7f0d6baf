/** The read side of the log analyser: the filtered queries of the log list
    (`view_logs`) and of the JSON endpoint (`api_logs`), the pagination
    arithmetic of the log list, and the per-file statistics of the dashboard.
    The database runs the queries; what is modelled is the text and the
    parameters handed to it. */
module Views {
  import opened Wrappers
  import opened PyBuiltins

  /** A bound query parameter: sqlite receives text or an integer. */
  datatype Param = Text(text: string) | Int(number: int)

  /** The four filters of the request arguments, `''` when absent. */
  datatype Filters = Filters(fileName: string, statusCode: string, ip: string, requestType: string)

  const SelectStar := "SELECT *"
  const SelectCountStar := "SELECT COUNT(*)"
  const FromLogs := " FROM logs" + " WHERE 1=1"
  const SelectAll := SelectStar + FromLogs
  const SelectCount := SelectCountStar + FromLogs
  const FileNameClause := " AND file_name = ?"
  const StatusClause := " AND status_code = ?"
  const IpClause := " AND ip LIKE ?"
  const RequestTypeClause := " AND request_type = ?"

  /** Rows per page of the log list. */
  const PerPage := 100
  const PageClause := " ORDER BY id DESC" + " LIMIT ?" + " OFFSET ?"
  const ApiLimitClause := " ORDER BY timestamp DESC" + " LIMIT 100"

  /** One filter condition: its text and the parameter bound to its placeholder. */
  datatype Clause = Clause(text: string, param: Param)

  /** `f'%{ip}%'`: `LIKE` matches the address anywhere. */
  function Anywhere(ip: string): string {
    "%" + ip + "%"
  }

  function SetCount(f: Filters): nat {
    (if f.fileName != "" then 1 else 0) + (if f.statusCode != "" then 1 else 0)
    + (if f.ip != "" then 1 else 0) + (if f.requestType != "" then 1 else 0)
  }

  /** A condition text: it ends in its one placeholder, and it holds no `S`. */
  predicate IsCondition(t: string) {
    |t| > 0 && t[|t| - 1] == '?' && '?' !in t[..|t| - 1] && 'S' !in t
  }

  lemma FileNameIsCondition() ensures IsCondition(FileNameClause) {
    assert FileNameClause[..|FileNameClause| - 1] == " AND file_name = ";
  }

  lemma StatusIsCondition() ensures IsCondition(StatusClause) {
    assert StatusClause[..|StatusClause| - 1] == " AND status_code = ";
  }

  lemma IpIsCondition() ensures IsCondition(IpClause) {
    assert IpClause[..|IpClause| - 1] == " AND ip LIKE ";
  }

  lemma RequestTypeIsCondition() ensures IsCondition(RequestTypeClause) {
    assert RequestTypeClause[..|RequestTypeClause| - 1] == " AND request_type = ";
  }

  /** The conditions of the filters that are set, in the order both views test
      them; `status` is what the status code is bound as. */
  function Clauses(f: Filters, status: Param): (cs: seq<Clause>)
    ensures |cs| == SetCount(f)
  {
    When(f.fileName != "", Clause(FileNameClause, Text(f.fileName)))
    + When(f.statusCode != "", Clause(StatusClause, status))
    + When(f.ip != "", Clause(IpClause, Text(Anywhere(f.ip))))
    + When(f.requestType != "", Clause(RequestTypeClause, Text(f.requestType)))
  }

  /** The condition of a filter: present when the filter is set. */
  function When(isSet: bool, c: Clause): seq<Clause> {
    if isSet then [c] else []
  }

  /** Every clause of the views is a condition text. */
  lemma ClausesAreConditions(f: Filters, status: Param)
    ensures forall k :: 0 <= k < |Clauses(f, status)| ==> IsCondition(Clauses(f, status)[k].text)
  {
    FileNameIsCondition();
    StatusIsCondition();
    IpIsCondition();
    RequestTypeIsCondition();
  }

  function Where(cs: seq<Clause>): string
    decreases |cs|
  {
    if cs == [] then "" else Where(cs[..|cs| - 1]) + cs[|cs| - 1].text
  }

  function ParamsOf(cs: seq<Clause>): (ps: seq<Param>)
    ensures |ps| == |cs|
    ensures forall k :: 0 <= k < |cs| ==> ps[k] == cs[k].param
  {
    seq(|cs|, k requires 0 <= k < |cs| => cs[k].param)
  }

  /** The fixed parts of the queries hold no placeholder. */
  lemma SelectAllHasNoPlaceholder() ensures '?' !in SelectAll {
    assert '?' !in SelectStar && '?' !in " FROM logs" && '?' !in " WHERE 1=1";
  }

  lemma SelectCountHasNoPlaceholder() ensures '?' !in SelectCount {
    assert '?' !in SelectCountStar && '?' !in " FROM logs" && '?' !in " WHERE 1=1";
  }

  lemma ApiLimitHasNoPlaceholder() ensures '?' !in ApiLimitClause {
    assert '?' !in " ORDER BY timestamp DESC" && '?' !in " LIMIT 100";
  }

  /** Appending one condition to a query built from `cs` gives the query of
      `cs` followed by it, and one more parameter. */
  lemma Extend(head: string, query: string, params: seq<Param>, cs: seq<Clause>, c: Clause)
    requires query == head + Where(cs) && params == ParamsOf(cs)
    ensures query + c.text == head + Where(cs + [c])
    ensures params + [c.param] == ParamsOf(cs + [c])
  {
    assert (cs + [c])[..|cs|] == cs;
  }

  lemma Associative(a: string, b: string, c: string)
    ensures (a + b) + c == a + (b + c)
  {
  }

  // ---------------------------------------------------------------------------
  // Placeholders
  // ---------------------------------------------------------------------------

  lemma {:induction false} CountAbsent(s: string, c: char)
    requires c !in s
    ensures Count(s, c) == 0
    decreases |s|
  {
    if s != [] {
      assert s[0] != c;
      assert forall k :: 0 <= k < |s[1..]| ==> s[1..][k] == s[k + 1];
      CountAbsent(s[1..], c);
    }
  }

  lemma OnePlaceholder(t: string)
    requires IsCondition(t)
    ensures Count(t, '?') == 1
  {
    var body := t[..|t| - 1];
    assert t == body + "?";
    CountAbsent(body, '?');
    CountConcat(body, "?", '?');
  }

  /** Every set filter brings one placeholder, and one parameter for it. */
  lemma {:induction false} PlaceholdersMatchClauses(head: string, cs: seq<Clause>)
    requires '?' !in head
    requires forall k :: 0 <= k < |cs| ==> IsCondition(cs[k].text)
    ensures Count(head + Where(cs), '?') == |ParamsOf(cs)|
    decreases |cs|
  {
    if cs == [] {
      assert head + Where(cs) == head;
      CountAbsent(head, '?');
    } else {
      var init, last := cs[..|cs| - 1], cs[|cs| - 1].text;
      assert head + Where(cs) == (head + Where(init)) + last;
      PlaceholdersMatchClauses(head, init);
      OnePlaceholder(last);
      CountConcat(head + Where(init), last, '?');
    }
  }

  /** No condition text holds an `S`. */
  lemma {:induction false} WhereHasNoS(cs: seq<Clause>)
    requires forall k :: 0 <= k < |cs| ==> IsCondition(cs[k].text)
    ensures 'S' !in Where(cs)
    decreases |cs|
  {
    if cs != [] {
      WhereHasNoS(cs[..|cs| - 1]);
    }
  }

  /** `query.replace('SELECT *', 'SELECT COUNT(*)')` on a filtered query
      counts the same rows. */
  lemma CountQueryOf(cs: seq<Clause>)
    requires forall k :: 0 <= k < |cs| ==> IsCondition(cs[k].text)
    ensures ReplaceAll(SelectAll + Where(cs), SelectStar, SelectCountStar) == SelectCount + Where(cs)
  {
    var rest := FromLogs + Where(cs);
    WhereHasNoS(cs);
    FromLogsHasNoS();
    Associative(SelectStar, FromLogs, Where(cs));
    Associative(SelectCountStar, FromLogs, Where(cs));
    ReplaceAllLeading(SelectStar, rest, SelectCountStar);
  }

  lemma FromLogsHasNoS() ensures 'S' !in FromLogs {
    assert 'S' !in " FROM logs" && 'S' !in " WHERE 1=1";
  }

  // ---------------------------------------------------------------------------
  // view_logs
  // ---------------------------------------------------------------------------

  /** The two queries of the log list: the count, with its parameters, and
      the page, with the same parameters followed by the limit and offset. */
  datatype PageQuery = PageQuery(countQuery: string, countParams: seq<Param>, query: string, params: seq<Param>)

  /** `(page - 1) * per_page`: the rows on the pages before `page`. */
  function Offset(page: int): int {
    (page - 1) * PerPage
  }

  /** What `view_logs` binds the status code as: `int(status_code)`, which
      raises `ValueError` on anything but an optionally signed integer
      literal of at most 4300 digits. */
  function ViewStatus(statusCode: string): Result<Param, Exception> {
    match ParseInt(statusCode)
    case Failure(e) => Failure(e)
    case Success(v) => Success(Int(v))
  }

  /** The queries of `view_logs` for the filters and the page: built from the
      conditions of the set filters; the `ValueError` of `int()` when the
      status code is set and `int()` rejects it. */
  function ViewQuery(f: Filters, page: int): Result<PageQuery, Exception> {
    var status := if f.statusCode == "" then Success(Int(0)) else ViewStatus(f.statusCode);
    if status.Failure? then Failure(status.error)
    else
      var cs := Clauses(f, status.value);
      Success(PageQuery(SelectCount + Where(cs), ParamsOf(cs),
                        SelectAll + Where(cs) + PageClause, ParamsOf(cs) + [Int(PerPage), Int(Offset(page))]))
  }

  /** `query` and `params` hold the conditions `cs` after `head`. */
  predicate Built(head: string, query: string, params: seq<Param>, cs: seq<Clause>) {
    query == head + Where(cs) && params == ParamsOf(cs)
  }

  /** One filter of the views: when it is set, its condition is appended to
      the query and its value to the parameters. */
  method AddFilter(query: string, params: seq<Param>, isSet: bool, c: Clause, ghost head: string, ghost cs: seq<Clause>)
    returns (query': string, params': seq<Param>)
    requires Built(head, query, params, cs)
    ensures Built(head, query', params', cs + When(isSet, c))
  {
    query', params' := query, params;
    if isSet {
      Extend(head, query, params, cs, c);
      query' := query + c.text;
      params' := params + [c.param];
    } else {
      assert cs + When(isSet, c) == cs;
    }
  }

  /** The query construction of `view_logs`, one filter at a time. */
  method BuildViewQuery(f: Filters, page: int) returns (r: Result<PageQuery, Exception>)
    ensures r == ViewQuery(f, page)
  {
    var query := SelectAll;
    var params: seq<Param> := [];
    ghost var cs: seq<Clause> := [];
    assert Built(SelectAll, query, params, cs);
    var c := Clause(FileNameClause, Text(f.fileName));
    query, params := AddFilter(query, params, f.fileName != "", c, SelectAll, cs);
    cs := When(f.fileName != "", c);
    var status := Int(0);
    if f.statusCode != "" {
      var v := ViewStatus(f.statusCode);
      if v.Failure? {
        return Failure(v.error);
      }
      status := v.value;
    }
    c := Clause(StatusClause, status);
    query, params := AddFilter(query, params, f.statusCode != "", c, SelectAll, cs);
    cs := cs + When(f.statusCode != "", c);
    c := Clause(IpClause, Text(Anywhere(f.ip)));
    query, params := AddFilter(query, params, f.ip != "", c, SelectAll, cs);
    cs := cs + When(f.ip != "", c);
    c := Clause(RequestTypeClause, Text(f.requestType));
    query, params := AddFilter(query, params, f.requestType != "", c, SelectAll, cs);
    cs := cs + When(f.requestType != "", c);
    assert cs == Clauses(f, status);
    ViewQueryOf(f, page, status, query, params);
    var countQuery := ReplaceAll(query, SelectStar, SelectCountStar);
    var offset := (page - 1) * PerPage;
    var pageQuery := query + PageClause;
    r := Success(PageQuery(countQuery, params, pageQuery, params + [Int(PerPage), Int(offset)]));
  }

  /** The queries built over the conditions of the set filters are those of `ViewQuery`. */
  lemma ViewQueryOf(f: Filters, page: int, status: Param, query: string, params: seq<Param>)
    requires f.statusCode == "" ==> status == Int(0)
    requires f.statusCode != "" ==> ViewStatus(f.statusCode) == Success(status)
    requires Built(SelectAll, query, params, Clauses(f, status))
    ensures ViewQuery(f, page) == Success(PageQuery(ReplaceAll(query, SelectStar, SelectCountStar), params,
                                               query + PageClause, params + [Int(PerPage), Int((page - 1) * PerPage)]))
  {
    ClausesAreConditions(f, status);
    CountQueryOf(Clauses(f, status));
  }

  /** The log list fails exactly when a status code is given that `int()`
      rejects; otherwise each query has one parameter per placeholder, and
      the page query has the two of the limit and offset more. */
  lemma ViewQueryPlaceholders(f: Filters, page: int)
    ensures ViewQuery(f, page).Failure? <==> f.statusCode != "" && ParseInt(f.statusCode).Failure?
    ensures ViewQuery(f, page).Failure? ==> ViewQuery(f, page).error == ParseInt(f.statusCode).error
    ensures ViewQuery(f, page).Success? ==>
      var q := ViewQuery(f, page).value;
      && Count(q.countQuery, '?') == |q.countParams| == SetCount(f)
      && Count(q.query, '?') == |q.params| == SetCount(f) + 2
      && q.params[..|q.countParams|] == q.countParams
      && q.params[|q.countParams|..] == [Int(PerPage), Int(Offset(page))]
  {
    var status := if f.statusCode == "" then Success(Int(0)) else ViewStatus(f.statusCode);
    if status.Success? {
      var cs := Clauses(f, status.value);
      ClausesAreConditions(f, status.value);
      SelectCountHasNoPlaceholder();
      SelectAllHasNoPlaceholder();
      PlaceholdersMatchClauses(SelectCount, cs);
      PlaceholdersMatchClauses(SelectAll, cs);
      CountPageClause();
      CountConcat(SelectAll + Where(cs), PageClause, '?');
    }
  }

  lemma CountPageClause()
    ensures Count(PageClause, '?') == 2
  {
    var a, b := " ORDER BY id DESC LIMIT ", " OFFSET ";
    assert PageClause == a + "?" + b + "?";
    TwoPlaceholders(a, b);
  }

  lemma TwoPlaceholders(a: string, b: string)
    requires '?' !in a && '?' !in b
    ensures Count(a + "?" + b + "?", '?') == 2
  {
    CountAbsent(a, '?');
    CountAbsent(b, '?');
    CountConcat(a, "?", '?');
    CountConcat(a + "?", b, '?');
    CountConcat(a + "?" + b, "?", '?');
  }

  /** `(total_count + per_page - 1) // per_page`. */
  function TotalPages(totalCount: nat): nat {
    (totalCount + PerPage - 1) / PerPage
  }

  /** The page count is the ceiling of the row count over the page size:
      the pages hold every row, and the last page is not empty. */
  lemma TotalPagesIsCeiling(totalCount: nat)
    ensures TotalPages(totalCount) * PerPage >= totalCount
    ensures TotalPages(totalCount) > 0 ==> (TotalPages(totalCount) - 1) * PerPage < totalCount
    ensures TotalPages(totalCount) == 0 <==> totalCount == 0
  {
    var p := TotalPages(totalCount);
    var r := (totalCount + PerPage - 1) % PerPage;
    assert totalCount + PerPage - 1 == p * PerPage + r;
  }

  /** Page `page` of the list starts after the rows of the pages before it;
      a page up to the last starts before the end of the rows. */
  lemma OffsetWithinRows(totalCount: nat, page: int)
    requires 1 <= page <= TotalPages(totalCount)
    ensures 0 <= Offset(page) < totalCount
    ensures Offset(page + 1) == Offset(page) + PerPage
  {
    TotalPagesIsCeiling(totalCount);
    assert Offset(page) <= (TotalPages(totalCount) - 1) * PerPage;
  }

  // ---------------------------------------------------------------------------
  // api_logs
  // ---------------------------------------------------------------------------

  /** The queries of `api_logs`: the first 100 rows and their count. */
  datatype ApiQuery = ApiQuery(query: string, countQuery: string, params: seq<Param>)

  /** `int(status_code) if status_code.isdigit() else status_code`: the
      `int()` of a digit string, which raises only past the digit limit. */
  function ApiStatus(statusCode: string): Result<Param, Exception> {
    if IsDigitString(statusCode) then ViewStatus(statusCode) else Success(Text(statusCode))
  }

  /** The queries of `api_logs` for the filters: both over the conditions of
      the set filters, with one list of parameters; the `ValueError` of
      `int()` when the status code is set and that raises. */
  function ApiQueryOf(f: Filters): Result<ApiQuery, Exception> {
    var status := if f.statusCode == "" then Success(Text("")) else ApiStatus(f.statusCode);
    if status.Failure? then Failure(status.error)
    else
      var cs := Clauses(f, status.value);
      Success(ApiQuery(SelectAll + Where(cs) + ApiLimitClause, SelectCount + Where(cs), ParamsOf(cs)))
  }

  /** Both queries of `api_logs` and their shared parameters hold the conditions `cs`. */
  predicate ApiBuilt(query: string, countQuery: string, params: seq<Param>, cs: seq<Clause>) {
    Built(SelectAll, query, params, cs) && Built(SelectCount, countQuery, params, cs)
  }

  /** The query construction of `api_logs`: every condition goes to both
      queries at once. */
  method BuildApiQuery(f: Filters) returns (r: Result<ApiQuery, Exception>)
    ensures r == ApiQueryOf(f)
  {
    var query, countQuery := SelectAll, SelectCount;
    var params: seq<Param> := [];
    ghost var cs: seq<Clause> := [];
    assert ApiBuilt(query, countQuery, params, cs);
    var c := Clause(FileNameClause, Text(f.fileName));
    query, countQuery, params := AddApiFilter(query, countQuery, params, f.fileName != "", c, cs);
    cs := When(f.fileName != "", c);
    var status := Text(f.statusCode);
    if f.statusCode != "" {
      var v := ApiStatus(f.statusCode);
      if v.Failure? {
        return Failure(v.error);
      }
      status := v.value;
    }
    c := Clause(StatusClause, status);
    query, countQuery, params := AddApiFilter(query, countQuery, params, f.statusCode != "", c, cs);
    cs := cs + When(f.statusCode != "", c);
    c := Clause(IpClause, Text(Anywhere(f.ip)));
    query, countQuery, params := AddApiFilter(query, countQuery, params, f.ip != "", c, cs);
    cs := cs + When(f.ip != "", c);
    c := Clause(RequestTypeClause, Text(f.requestType));
    query, countQuery, params := AddApiFilter(query, countQuery, params, f.requestType != "", c, cs);
    cs := cs + When(f.requestType != "", c);
    assert cs == Clauses(f, status);
    ApiQueryOfBuilt(f, status, query, countQuery, params);
    r := Success(ApiQuery(query + ApiLimitClause, countQuery, params));
  }

  /** The queries built over the conditions of the set filters are those of `ApiQueryOf`. */
  lemma ApiQueryOfBuilt(f: Filters, status: Param, query: string, countQuery: string, params: seq<Param>)
    requires ApiStatus(f.statusCode) == Success(status)
    requires ApiBuilt(query, countQuery, params, Clauses(f, status))
    ensures ApiQueryOf(f) == Success(ApiQuery(query + ApiLimitClause, countQuery, params))
  {
    assert f.statusCode == "" ==> Clauses(f, status) == Clauses(f, Text(""));
  }

  /** One filter of `api_logs`: its condition goes to both queries, its value
      once to the shared parameters. */
  method AddApiFilter(query: string, countQuery: string, params: seq<Param>, isSet: bool, c: Clause, ghost cs: seq<Clause>)
    returns (query': string, countQuery': string, params': seq<Param>)
    requires ApiBuilt(query, countQuery, params, cs)
    ensures ApiBuilt(query', countQuery', params', cs + When(isSet, c))
  {
    query', countQuery', params' := query, countQuery, params;
    if isSet {
      Extend(SelectAll, query, params, cs, c);
      Extend(SelectCount, countQuery, params, cs, c);
      query', countQuery' := query + c.text, countQuery + c.text;
      params' := params + [c.param];
    } else {
      assert cs + When(isSet, c) == cs;
    }
  }

  /** The endpoint fails exactly when the status code is a digit string
      longer than the digit limit; otherwise it counts with the same
      conditions and parameters as it lists, and with one parameter per
      placeholder. */
  lemma ApiQueryPlaceholders(f: Filters)
    ensures ApiQueryOf(f).Failure? <==> IsDigitString(f.statusCode) && |f.statusCode| > MaxStrDigits
    ensures ApiQueryOf(f).Failure? ==> ApiQueryOf(f).error == IntLimitError(|f.statusCode|)
    ensures ApiQueryOf(f).Success? ==> var q := ApiQueryOf(f).value;
      && Count(q.countQuery, '?') == |q.params| == SetCount(f)
      && Count(q.query, '?') == |q.params|
      && q.countQuery == ReplaceAll(q.query[..|q.query| - |ApiLimitClause|], SelectStar, SelectCountStar)
  {
    if IsDigitString(f.statusCode) {
      ParseIntOfDigits(f.statusCode);
    }
    var status := if f.statusCode == "" then Success(Text("")) else ApiStatus(f.statusCode);
    if status.Failure? {
      return;
    }
    var cs := Clauses(f, status.value);
    ClausesAreConditions(f, status.value);
    SelectCountHasNoPlaceholder();
    SelectAllHasNoPlaceholder();
    PlaceholdersMatchClauses(SelectCount, cs);
    PlaceholdersMatchClauses(SelectAll, cs);
    ApiLimitHasNoPlaceholder();
    CountAbsent(ApiLimitClause, '?');
    CountConcat(SelectAll + Where(cs), ApiLimitClause, '?');
    var q := ApiQueryOf(f).value;
    assert q.query[..|q.query| - |ApiLimitClause|] == SelectAll + Where(cs);
    CountQueryOf(cs);
  }

  /** When the status code is absent or made of digits, the log list and the
      endpoint both fail, with the same error, exactly when the code is
      longer than the digit limit, and otherwise count the same rows: the
      same count query, the same parameters. */
  lemma ViewAndApiAgree(f: Filters, page: int)
    requires f.statusCode == "" || IsDigitString(f.statusCode)
    ensures ViewQuery(f, page).Success? <==> |f.statusCode| <= MaxStrDigits
    ensures ApiQueryOf(f).Success? <==> |f.statusCode| <= MaxStrDigits
    ensures ViewQuery(f, page).Failure? ==> ViewQuery(f, page).error == ApiQueryOf(f).error
    ensures ViewQuery(f, page).Success? ==>
      && ViewQuery(f, page).value.countQuery == ApiQueryOf(f).value.countQuery
      && ViewQuery(f, page).value.countParams == ApiQueryOf(f).value.params
  {
    if f.statusCode != "" {
      ParseIntOfDigits(f.statusCode);
    } else {
      assert Clauses(f, Int(0)) == Clauses(f, Text(""));
    }
  }

  // ---------------------------------------------------------------------------
  // Dashboard: per-file statistics
  // ---------------------------------------------------------------------------

  /** A row of `files`, newest upload first. */
  datatype FileRow = FileRow(fileName: string, uploadDate: string, recordCount: int)

  /** The grouped statistics of a file that has rows in `logs`. */
  datatype FileStats = FileStats(uniqueIps: int, errorCount: int)

  /** A file as the dashboard lists it. */
  datatype FileInfo = FileInfo(fileName: string, uploadDate: string, recordCount: int,
                               uniqueIps: int, errorCount: int)

  /** The merge loop of `dashboard`: every file, in order, with its statistics,
      or zeros when it has no rows. */
  method MergeFileStats(filesBasic: seq<FileRow>, fileStats: map<string, FileStats>) returns (files: seq<FileInfo>)
    ensures |files| == |filesBasic|
    ensures forall i :: 0 <= i < |files| ==>
      && files[i].fileName == filesBasic[i].fileName
      && files[i].uploadDate == filesBasic[i].uploadDate
      && files[i].recordCount == filesBasic[i].recordCount
    ensures forall i :: 0 <= i < |files| ==>
      if filesBasic[i].fileName in fileStats then
        files[i].uniqueIps == fileStats[filesBasic[i].fileName].uniqueIps
        && files[i].errorCount == fileStats[filesBasic[i].fileName].errorCount
      else files[i].uniqueIps == 0 && files[i].errorCount == 0
  {
    files := [];
    for i := 0 to |filesBasic|
      invariant |files| == i
      invariant forall j :: 0 <= j < i ==>
        && files[j].fileName == filesBasic[j].fileName
        && files[j].uploadDate == filesBasic[j].uploadDate
        && files[j].recordCount == filesBasic[j].recordCount
      invariant forall j :: 0 <= j < i ==>
        if filesBasic[j].fileName in fileStats then
          files[j].uniqueIps == fileStats[filesBasic[j].fileName].uniqueIps
          && files[j].errorCount == fileStats[filesBasic[j].fileName].errorCount
        else files[j].uniqueIps == 0 && files[j].errorCount == 0
    {
      var file := filesBasic[i];
      var info := FileInfo(file.fileName, file.uploadDate, file.recordCount, 0, 0);
      if file.fileName in fileStats {
        var stats := fileStats[file.fileName];
        info := info.(uniqueIps := stats.uniqueIps, errorCount := stats.errorCount);
      }
      files := files + [info];
    }
  }
}
