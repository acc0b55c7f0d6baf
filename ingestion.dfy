/** The ingestion pipeline of the log analyser: the background run that reads
    an uploaded file, parses and de-duplicates its lines and stores them in
    batches; the synchronous legacy variant; the status entry shown to the
    browser while a run is going on; the status lookup; and the upload step
    that picks the stored file name and starts a run.

    The database is the pair of tables `files` (file name to record count) and
    `logs` (one row per accepted record). A transaction is modelled by rows
    held back until a commit appends them; a commit that fails discards them.
    Which commit of a run fails, if any, is a parameter. */
module Ingestion {
  import opened Wrappers
  import opened PyBuiltins
  import opened LogParser
  import opened FirstOccurrence

  /** One row of the `logs` table. */
  datatype Row = Row(fileName: string, record: LogRecord, uploadDate: string)

  function RowsOf(rs: seq<LogRecord>, fileName: string, uploadDate: string): (rows: seq<Row>)
    ensures |rows| == |rs|
    ensures forall k :: 0 <= k < |rs| ==> rows[k] == Row(fileName, rs[k], uploadDate)
  {
    seq(|rs|, k requires 0 <= k < |rs| => Row(fileName, rs[k], uploadDate))
  }

  lemma RowsOfSnoc(rs: seq<LogRecord>, r: LogRecord, fileName: string, uploadDate: string)
    ensures RowsOf(rs + [r], fileName, uploadDate) == RowsOf(rs, fileName, uploadDate) + [Row(fileName, r, uploadDate)]
  {
  }

  lemma RowsOfSplit(rs: seq<LogRecord>, n: nat, fileName: string, uploadDate: string)
    requires n <= |rs|
    ensures RowsOf(rs[..n], fileName, uploadDate) + RowsOf(rs[n..], fileName, uploadDate) == RowsOf(rs, fileName, uploadDate)
  {
  }

  // ---------------------------------------------------------------------------
  // What a run reads from the file
  // ---------------------------------------------------------------------------

  /** What `parse_apache_log` gives for one line: a record, `None`, or the
      exception it raises. */
  type LineResult = Result<Option<LogRecord>, Exception>

  /** `parse_apache_log(line.strip())` for every line of the file. */
  function Results(lines: seq<string>): (rs: seq<LineResult>)
    ensures |rs| == |lines|
    decreases |lines|
  {
    if lines == [] then [] else Results(lines[..|lines| - 1]) + [ParseApacheLog(Strip(lines[|lines| - 1]))]
  }

  /** `parse_apache_log(line.strip())` for line `i`. */
  method ParseLine(lines: seq<string>, i: nat) returns (parsed: LineResult)
    requires i < |lines|
    ensures parsed == Results(lines)[i]
  {
    parsed := ParseApacheLog(Strip(lines[i]));
    ResultsAt(lines, i);
  }

  /** The result for line `k` is what the parser gives for that line. */
  lemma {:induction false} ResultsAt(lines: seq<string>, k: nat)
    requires k < |lines|
    ensures Results(lines)[k] == ParseApacheLog(Strip(lines[k]))
    decreases |lines|
  {
    var init, last := lines[..|lines| - 1], ParseApacheLog(Strip(lines[|lines| - 1]));
    assert Results(lines) == Results(init) + [last];
    if k < |init| {
      ResultsAt(init, k);
      assert init[k] == lines[k];
      assert Results(lines)[k] == Results(init)[k];
    } else {
      assert Results(lines)[k] == last;
    }
  }

  /** The record a line contributes: none when it does not match. */
  function Kept(r: LineResult): seq<LogRecord> {
    if r.Success? && r.value.Some? then [r.value.value] else []
  }

  /** The records of the lines that parse, in line order. */
  function Parsed(rs: seq<LineResult>): seq<LogRecord>
    decreases |rs|
  {
    if rs == [] then []
    else Parsed(rs[..|rs| - 1]) + Kept(rs[|rs| - 1])
  }

  lemma ParsedSnoc(rs: seq<LineResult>, i: nat)
    requires i < |rs|
    ensures Parsed(rs[..i + 1]) == Parsed(rs[..i]) + Kept(rs[i])
  {
    assert rs[..i + 1][..i] == rs[..i];
  }

  lemma {:induction false} ParsedConcat(xs: seq<LineResult>, ys: seq<LineResult>)
    ensures Parsed(xs + ys) == Parsed(xs) + Parsed(ys)
    decreases |ys|
  {
    if ys == [] {
      assert xs + ys == xs;
    } else {
      var init := ys[..|ys| - 1];
      assert (xs + ys)[..|xs + ys| - 1] == xs + init;
      ParsedConcat(xs, init);
    }
  }

  /** The index of the first line whose parse raises, or the number of lines. */
  function FirstFault(rs: seq<LineResult>): (f: nat)
    ensures f <= |rs|
    ensures forall j :: 0 <= j < f ==> rs[j].Success?
    ensures f < |rs| ==> rs[f].Failure?
    decreases |rs|
  {
    if rs == [] then 0
    else if rs[0].Failure? then 0
    else 1 + FirstFault(rs[1..])
  }

  /** The exception raised by the line at the first fault, if there is one. */
  function LineError(rs: seq<LineResult>): (e: Option<Exception>)
    ensures e.Some? <==> FirstFault(rs) < |rs|
  {
    var f := FirstFault(rs);
    if f < |rs| then Some(rs[f].error) else None
  }

  /** The records a run hands to the store, in order: the first occurrence of
      each key among the lines read before the first one whose parse raises. */
  function Accepted(rs: seq<LineResult>): seq<LogRecord> {
    Dedup(Parsed(rs[..FirstFault(rs)]))
  }

  /** What was accepted after `i` lines is a prefix of what the run accepts. */
  lemma AcceptedExtends(rs: seq<LineResult>, i: nat)
    requires i <= FirstFault(rs)
    ensures |Dedup(Parsed(rs[..i]))| <= |Accepted(rs)|
    ensures Accepted(rs)[..|Dedup(Parsed(rs[..i]))|] == Dedup(Parsed(rs[..i]))
  {
    var f := FirstFault(rs);
    assert rs[..f] == rs[..i] + rs[i..f];
    ParsedConcat(rs[..i], rs[i..f]);
    DedupPrefix(Parsed(rs[..i]), Parsed(rs[i..f]));
  }

  /** The rows handed to the store are the first occurrences of the keys. */
  lemma AcceptedIsFirstOccurrences(rs: seq<LineResult>)
    ensures var p := Parsed(rs[..FirstFault(rs)]);
      Accepted(rs) == Select(p, FirstIndices(p, |p|))
  {
    var p := Parsed(rs[..FirstFault(rs)]);
    assert p[..|p|] == p;
    DedupIsFirstOccurrences(p, |p|);
  }

  /** What a run has accepted after reading `i` lines without a fault. */
  function AcceptedAfter(rs: seq<LineResult>, i: nat): seq<LogRecord>
    requires i <= |rs|
  {
    Dedup(Parsed(rs[..i]))
  }

  /** What the next line's record adds: itself exactly when its key is new. */
  function Admit(accepted: seq<LogRecord>, r: Option<LogRecord>): seq<LogRecord> {
    if r.None? then accepted
    else if KeyOf(r.value) in KeysOf(accepted) then accepted
    else accepted + [r.value]
  }

  lemma AcceptNext(rs: seq<LineResult>, i: nat)
    requires i < |rs| && rs[i].Success?
    ensures AcceptedAfter(rs, i + 1) == Admit(AcceptedAfter(rs, i), rs[i].value)
  {
    ParsedSnoc(rs, i);
    if rs[i].value.Some? {
      DedupSnoc(Parsed(rs[..i]), rs[i].value.value);
    } else {
      assert Parsed(rs[..i]) + [] == Parsed(rs[..i]);
    }
  }

  /** A line that raises ends what the run accepts. */
  lemma StopAt(rs: seq<LineResult>, i: nat)
    requires i <= FirstFault(rs) && i < |rs| && rs[i].Failure?
    ensures Accepted(rs) == AcceptedAfter(rs, i) && LineError(rs) == Some(rs[i].error)
  {
  }

  /** Without a line that raises, the run accepts what it read. */
  lemma ReadAll(rs: seq<LineResult>)
    requires FirstFault(rs) == |rs|
    ensures Accepted(rs) == AcceptedAfter(rs, |rs|) && LineError(rs).None?
  {
  }

  /** A line that parses keeps the run going. */
  lemma Continue(rs: seq<LineResult>, i: nat)
    requires i <= FirstFault(rs) && i < |rs| && rs[i].Success?
    ensures i + 1 <= FirstFault(rs)
  {
  }

  // ---------------------------------------------------------------------------
  // Outcome of a run
  // ---------------------------------------------------------------------------

  /** A commit of the run that fails: the `at`-th commit (from 0), with the
      message of the `sqlite3.Error` it raises. */
  datatype StoreFailure = StoreFailure(at: nat, message: string)

  predicate FailsAt(fault: Option<StoreFailure>, n: nat) {
    fault.Some? && fault.value.at == n
  }

  /** How many accepted rows end up committed, and the exception, if any. */
  datatype Outcome = Outcome(stored: nat, raised: Option<Exception>)

  /** The background run over `n` accepted rows. Commits: one per full batch
      of 500 as it fills, one for the last partial batch, one for the
      record-count update. A line that raises stops the run after the full
      batches formed before it. */
  function AsyncOutcome(fileName: string, registered: bool, n: nat, lineError: Option<Exception>, fault: Option<StoreFailure>): (o: Outcome)
    ensures o.stored <= n
  {
    var full := n / 500;
    var partial := n % 500 != 0;
    if !registered then Outcome(0, Some(KeyError(fileName)))
    else if fault.Some? && fault.value.at < full then Outcome(500 * fault.value.at, Some(DatabaseError(fault.value.message)))
    else if lineError.Some? then Outcome(500 * full, lineError)
    else if partial && FailsAt(fault, full) then Outcome(500 * full, Some(DatabaseError(fault.value.message)))
    else if FailsAt(fault, if partial then full + 1 else full) then Outcome(n, Some(DatabaseError(fault.value.message)))
    else Outcome(n, None)
  }

  /** The synchronous run over `n` accepted rows. Commits: one each time the
      record count reaches a multiple of 1000, one for the record-count update
      together with the rows inserted since. Uncommitted rows are lost on any
      exception. */
  function SyncOutcome(n: nat, lineError: Option<Exception>, fault: Option<StoreFailure>): (o: Outcome)
    ensures o.stored <= n
  {
    var full := n / 1000;
    if fault.Some? && fault.value.at < full then Outcome(1000 * fault.value.at, Some(DatabaseError(fault.value.message)))
    else if lineError.Some? then Outcome(1000 * full, lineError)
    else if FailsAt(fault, full) then Outcome(1000 * full, Some(DatabaseError(fault.value.message)))
    else Outcome(n, None)
  }

  function AsyncRun(fileName: string, registered: bool, lines: seq<string>, fault: Option<StoreFailure>): (o: Outcome)
    ensures o.stored <= |Accepted(Results(lines))|
  {
    var rs := Results(lines);
    AsyncOutcome(fileName, registered, |Accepted(rs)|, LineError(rs), fault)
  }

  function SyncRun(lines: seq<string>, fault: Option<StoreFailure>): (o: Outcome)
    ensures o.stored <= |Accepted(Results(lines))|
  {
    var rs := Results(lines);
    SyncOutcome(|Accepted(rs)|, LineError(rs), fault)
  }

  /** The number of commits a background run over `n` rows makes when nothing fails. */
  function AsyncCommits(n: nat): nat {
    n / 500 + (if n % 500 != 0 then 1 else 0) + 1
  }

  /** A background run completes exactly when the file has a status entry, no
      line raises and none of its commits fails. */
  lemma AsyncCompletes(fileName: string, registered: bool, n: nat, lineError: Option<Exception>, fault: Option<StoreFailure>)
    ensures AsyncOutcome(fileName, registered, n, lineError, fault).raised.None? <==>
      registered && lineError.None? && (fault.None? || fault.value.at >= AsyncCommits(n))
  {
  }

  /** A completed run stores one row per distinct key among the lines that parse. */
  lemma CompletedStoresDistinctKeys(rs: seq<LineResult>)
    requires LineError(rs).None?
    ensures |Accepted(rs)| == |KeysOf(Parsed(rs))|
  {
    assert rs[..|rs|] == rs;
    DedupCount(Parsed(rs));
  }

  /** The two variants accept the same rows: when no commit fails they raise
      the same exception, store everything when no line raises, and otherwise
      the background run, which commits more often, keeps at least as many. */
  lemma VariantsAgree(fileName: string, n: nat, lineError: Option<Exception>)
    ensures AsyncOutcome(fileName, true, n, lineError, None).raised == SyncOutcome(n, lineError, None).raised == lineError
    ensures lineError.None? ==> AsyncOutcome(fileName, true, n, lineError, None).stored == SyncOutcome(n, lineError, None).stored == n
    ensures AsyncOutcome(fileName, true, n, lineError, None).stored >= SyncOutcome(n, lineError, None).stored
  {
  }

  /** After an exception only committed rows remain: whole batches, or all
      rows when only the count update failed. */
  lemma FailureKeepsWholeBatches(fileName: string, n: nat, lineError: Option<Exception>, fault: Option<StoreFailure>)
    requires AsyncOutcome(fileName, true, n, lineError, fault).raised.Some?
    ensures var o := AsyncOutcome(fileName, true, n, lineError, fault);
      o.stored % 500 == 0 || o.stored == n
  {
  }

  // ---------------------------------------------------------------------------
  // Progress
  // ---------------------------------------------------------------------------

  /** The progress values a run writes into its status entry after reading
      `n` of `total` lines: one every 100 lines, the percentage of lines read,
      rounded down. */
  function ProgressWrites(total: nat, n: nat): seq<int>
    requires n <= total
    decreases n
  {
    if n == 0 then []
    else ProgressWrites(total, n - 1) + (if n % 100 == 0 then [n * 100 / total] else [])
  }

  lemma MulNonPositive(x: int, t: nat)
    requires x <= 0
    ensures x * t <= 0
    decreases -x
  {
    if x < 0 {
      MulNonPositive(x + 1, t);
      assert x * t == (x + 1) * t - t;
    }
  }

  lemma MulAtLeast(x: nat, t: nat)
    requires x >= 1
    ensures x * t >= t
    decreases x
  {
    if x > 1 {
      MulAtLeast(x - 1, t);
      assert x * t == (x - 1) * t + t;
    }
  }

  lemma MulAtMost(x: int, t: nat)
    requires x <= -1
    ensures x * t + t <= 0
    decreases -x
  {
    if x < -1 {
      MulAtMost(x + 1, t);
      assert x * t == (x + 1) * t - t;
    }
  }

  lemma DivMonotone(a: int, b: int, t: int)
    requires 0 <= a <= b && 0 < t
    ensures a / t <= b / t
  {
    var qa, qb := a / t, b / t;
    var ra, rb := a % t, b % t;
    assert a == qa * t + ra && 0 <= ra < t;
    assert b == qb * t + rb && 0 <= rb < t;
    var d := qb + 1 - qa;
    assert d * t == qb * t + t - qa * t;
    if d <= 0 {
      MulNonPositive(d, t);
    }
  }

  lemma DivExact(k: int, t: int)
    requires t > 0
    ensures k * t / t == k
  {
    var q, r := k * t / t, k * t % t;
    assert k * t == q * t + r && 0 <= r < t;
    var d := k - q;
    assert d * t == r;
    if d > 0 {
      MulAtLeast(d, t);
    } else if d < 0 {
      MulAtMost(d, t);
    }
  }

  /** Every value written is at most what a later line count would give. */
  lemma {:induction false} ProgressWritesBelow(total: nat, n: nat, m: nat)
    requires n <= m <= total
    ensures forall k :: 0 <= k < |ProgressWrites(total, n)| ==>
      0 <= ProgressWrites(total, n)[k] <= m * 100 / total
    decreases n
  {
    if n > 0 {
      ProgressWritesBelow(total, n - 1, m);
      DivMonotone(n * 100, m * 100, total);
    }
  }

  /** The progress a run shows stays within 0..100. */
  lemma ProgressWritesBounded(total: nat, n: nat)
    requires n <= total
    ensures forall k :: 0 <= k < |ProgressWrites(total, n)| ==> 0 <= ProgressWrites(total, n)[k] <= 100
  {
    if n > 0 {
      ProgressWritesBelow(total, n, total);
      DivExact(100, total);
    }
  }

  /** The progress a run shows never goes down. */
  lemma {:induction false} ProgressWritesMonotone(total: nat, n: nat)
    requires n <= total
    ensures forall j, k :: 0 <= j < k < |ProgressWrites(total, n)| ==>
      ProgressWrites(total, n)[j] <= ProgressWrites(total, n)[k]
    decreases n
  {
    if n > 0 {
      var w := ProgressWrites(total, n - 1);
      var x := if n % 100 == 0 then [n * 100 / total] else [];
      assert ProgressWrites(total, n) == w + x;
      ProgressWritesMonotone(total, n - 1);
      ProgressWritesBelow(total, n - 1, n);
    }
  }

  /** One value per 100 lines read. */
  lemma {:induction false} ProgressWritesCount(total: nat, n: nat)
    requires n <= total
    ensures |ProgressWrites(total, n)| == n / 100
    decreases n
  {
    if n > 0 {
      ProgressWritesCount(total, n - 1);
    }
  }

  /** `n` lies in the `c`-th block of `t`. */
  lemma DivBetween(n: nat, c: nat, t: nat)
    requires t > 0 && t * c <= n < t * c + t
    ensures n / t == c && n % t == n - t * c
  {
    var q, r := n / t, n % t;
    assert n == q * t + r && 0 <= r < t;
    var d := q - c;
    assert d * t == n - r - t * c;
    if d > 0 {
      MulAtLeast(d, t);
    } else if d < 0 {
      MulAtMost(d, t);
    }
  }

  // ---------------------------------------------------------------------------
  // Where a run stops, and its outcome
  // ---------------------------------------------------------------------------

  /** A background run whose line raises after `commits` full batches keeps
      those batches. */
  lemma AsyncLineErrorExit(fileName: string, n: nat, e: Exception, fault: Option<StoreFailure>, commits: nat)
    requires 500 * commits <= n < 500 * commits + 500
    requires fault.None? || fault.value.at >= commits
    ensures AsyncOutcome(fileName, true, n, Some(e), fault) == Outcome(500 * commits, Some(e))
  {
    DivBetween(n, commits, 500);
  }

  /** A background run whose commit of a full batch fails keeps the batches before it. */
  lemma AsyncBatchFailExit(fileName: string, n: nat, lineError: Option<Exception>, fault: Option<StoreFailure>, commits: nat)
    requires FailsAt(fault, commits) && 500 * commits + 500 <= n
    ensures AsyncOutcome(fileName, true, n, lineError, fault) == Outcome(500 * commits, Some(DatabaseError(fault.value.message)))
  {
    DivMonotone(500 * (commits + 1), n, 500);
    DivExact(commits + 1, 500);
  }

  /** A background run whose commit of the last, partial batch fails keeps the full ones. */
  lemma AsyncFlushFailExit(fileName: string, n: nat, fault: Option<StoreFailure>, commits: nat)
    requires FailsAt(fault, commits) && 500 * commits < n < 500 * commits + 500
    ensures AsyncOutcome(fileName, true, n, None, fault) == Outcome(500 * commits, Some(DatabaseError(fault.value.message)))
  {
    DivBetween(n, commits, 500);
  }

  /** After its `commits` batch commits, a background run has stored every
      row; what is left is the commit of the record-count update. */
  lemma AsyncFinishExit(fileName: string, n: nat, fault: Option<StoreFailure>, commits: nat)
    requires n <= 500 * commits < n + 500
    requires fault.None? || fault.value.at >= commits
    ensures AsyncOutcome(fileName, true, n, None, fault) ==
      if FailsAt(fault, commits) then Outcome(n, Some(DatabaseError(fault.value.message))) else Outcome(n, None)
  {
    if n == 500 * commits {
      DivBetween(n, commits, 500);
    } else {
      DivBetween(n, commits - 1, 500);
    }
  }

  /** A synchronous run whose line raises keeps the rows of its commits. */
  lemma SyncLineErrorExit(n: nat, e: Exception, fault: Option<StoreFailure>, commits: nat)
    requires 1000 * commits <= n < 1000 * commits + 1000
    requires fault.None? || fault.value.at >= commits
    ensures SyncOutcome(n, Some(e), fault) == Outcome(1000 * commits, Some(e))
  {
    DivBetween(n, commits, 1000);
  }

  /** A synchronous run whose commit at a multiple of 1000 rows fails keeps the commits before it. */
  lemma SyncBatchFailExit(n: nat, lineError: Option<Exception>, fault: Option<StoreFailure>, commits: nat)
    requires FailsAt(fault, commits) && 1000 * commits + 1000 <= n
    ensures SyncOutcome(n, lineError, fault) == Outcome(1000 * commits, Some(DatabaseError(fault.value.message)))
  {
    DivMonotone(1000 * (commits + 1), n, 1000);
    DivExact(commits + 1, 1000);
  }

  /** The last commit of a synchronous run stores the remaining rows and the
      record count, or, failing, neither. */
  lemma SyncFinishExit(n: nat, fault: Option<StoreFailure>, commits: nat)
    requires 1000 * commits <= n < 1000 * commits + 1000
    requires fault.None? || fault.value.at >= commits
    ensures SyncOutcome(n, None, fault) ==
      if FailsAt(fault, commits) then Outcome(1000 * commits, Some(DatabaseError(fault.value.message))) else Outcome(n, None)
  {
    DivBetween(n, commits, 1000);
  }

  /** The record count reaches a multiple of 1000 exactly when 1000 rows wait. */
  lemma SyncCommitsWhenFull(commits: nat, waiting: nat)
    requires 0 < waiting <= 1000
    ensures (1000 * commits + waiting) % 1000 == 0 <==> waiting == 1000
  {
    if waiting < 1000 {
      DivBetween(1000 * commits + waiting, commits, 1000);
    } else {
      DivBetween(1000 * commits + waiting, commits + 1, 1000);
    }
  }

  // ---------------------------------------------------------------------------
  // Status entries
  // ---------------------------------------------------------------------------

  datatype Status = Processing | Completed | Error | Unknown

  /** A status dictionary: the keys a dictionary lacks are `None`. */
  datatype Entry = Entry(status: Status, progress: Option<int>, total: Option<int>,
                         processed: Option<int>, error: Option<string>)

  /** `{'status': 'processing', 'progress': 0, 'total': 0}`, set on upload. */
  const Started := Entry(Processing, Some(0), Some(0), None, None)

  function CompletedEntry(total: int, processed: int): Entry {
    Entry(Completed, Some(100), Some(total), Some(processed), None)
  }

  function ErrorEntry(e: Exception): Entry {
    Entry(Error, None, None, None, Some(Str(e)))
  }

  /** The entry a run updates in place: the line total, then the last progress
      value written, if any. */
  function Running(e: Entry, total: nat, writes: seq<int>): Entry {
    e.(total := Some(total), progress := if writes == [] then e.progress else Some(writes[|writes| - 1]))
  }

  /** The entry at the end of a run. */
  function FinalEntry(o: Outcome, total: nat): (e: Entry)
    ensures e.status == Completed <==> o.raised.None?
    ensures o.raised.None? ==> e.progress == Some(100) && e.processed == Some(o.stored) && e.total == Some(total)
    ensures o.raised.Some? ==> e.error == Some(Str(o.raised.value)) && e.progress.None?
  {
    if o.raised.None? then CompletedEntry(total, o.stored) else ErrorEntry(o.raised.value)
  }

  // ---------------------------------------------------------------------------
  // Upload name and status lookup
  // ---------------------------------------------------------------------------

  /** The name given to an upload whose name is already taken: the timestamp
      goes between the base name and the extension. */
  function UniqueName(name: string, stamp: string): string {
    var (base, ext) := SplitExt(name);
    base + "_" + stamp + ext
  }

  /** `splitext` of a name that has no extension, with text appended that
      holds neither a dot nor a slash: still no extension. */
  lemma SplitExtAppendNoExt(name: string, mid: string)
    requires SplitExt(name).1 == []
    requires forall k :: 0 <= k < |mid| ==> mid[k] != '.' && mid[k] != '/'
    ensures SplitExt(name + mid) == (name + mid, [])
  {
    var p := name + mid;
    var sep, dot := LastIndex(name, '/'), LastIndex(name, '.');
    LastIndexUnique(p, '/', sep);
    LastIndexUnique(p, '.', dot);
    assert !(dot > sep && exists k :: sep + 1 <= k < dot && name[k] != '.');
    assert forall k :: 0 <= k < |name| ==> p[k] == name[k];
  }

  /** `splitext` of `base + mid + ext` where `ext` is an extension and `mid`
      starts with a character other than a dot: the extension is `ext`. */
  lemma SplitExtInsert(base: string, mid: string, ext: string)
    requires ext != [] && ext[0] == '.'
    requires forall k :: 0 < k < |ext| ==> ext[k] != '.' && ext[k] != '/'
    requires mid != [] && mid[0] != '.'
    requires forall k :: 0 <= k < |mid| ==> mid[k] != '.' && mid[k] != '/'
    ensures SplitExt(base + mid + ext) == (base + mid, ext)
  {
    var p := base + mid + ext;
    var sep := LastIndex(base, '/');
    var dot := |base| + |mid|;
    assert p[dot] == '.';
    LastIndexUnique(p, '/', sep);
    LastIndexUnique(p, '.', dot);
    assert p[|base|] != '.';
    assert p[..dot] == base + mid;
    assert p[dot..] == ext;
  }

  /** The new name keeps the extension: `splitext` splits it into the old
      base name with the timestamp appended, and the old extension. The
      timestamp (`%Y%m%d%H%M%S`) holds neither a dot nor a slash. */
  lemma UniqueNameSplits(name: string, stamp: string)
    requires forall k :: 0 <= k < |stamp| ==> stamp[k] != '.' && stamp[k] != '/'
    ensures SplitExt(UniqueName(name, stamp)) == (SplitExt(name).0 + "_" + stamp, SplitExt(name).1)
  {
    var (base, ext) := SplitExt(name);
    var mid := "_" + stamp;
    assert base + "_" + stamp == base + mid;
    if ext == [] {
      assert base + mid + ext == base + mid;
      SplitExtAppendNoExt(base, mid);
    } else {
      SplitExtInsert(base, mid, ext);
    }
  }

  /** `GET /processing_status/<name>`: the in-memory entry if there is one;
      otherwise completed with the stored record count when the file has
      records, and unknown when it has none or has no row. */
  function LookupStatus(processingStatus: map<string, Entry>, files: map<string, int>, name: string): (e: Entry)
    ensures name in processingStatus ==> e == processingStatus[name]
    ensures name !in processingStatus ==> (e.status == Completed <==> name in files && files[name] > 0)
    ensures name !in processingStatus && e.status == Completed ==> e.progress == Some(100) && e.processed == Some(files[name])
    ensures name !in processingStatus && e.status != Completed ==> e == Entry(Unknown, None, None, None, None)
  {
    if name in processingStatus then processingStatus[name]
    else if name in files && files[name] > 0 then Entry(Completed, Some(100), None, Some(files[name]), None)
    else Entry(Unknown, None, None, None, None)
  }

  /** Once a completed run's entry is gone from memory, the lookup falls back
      on the record count the run stored and reports the same status,
      progress and count, unless the run stored no rows. */
  lemma LookupAfterRun(files: map<string, int>, name: string, o: Outcome, total: nat)
    requires o.raised.None? && name in files && files[name] == o.stored
    ensures var e, f := LookupStatus(map[], files, name), FinalEntry(o, total);
      if o.stored > 0 then e.status == f.status && e.progress == f.progress && e.processed == f.processed
      else e.status == Unknown
  {
  }

  /** A background run stopped by the line `i` that raises, having accepted
      `accepted` in `commits` full batches and a partial one. */
  lemma AsyncStopsAtLine(fileName: string, rs: seq<LineResult>, fault: Option<StoreFailure>, i: nat,
                         accepted: seq<LogRecord>, commits: nat)
    requires i < |rs| && i <= FirstFault(rs) && rs[i].Failure?
    requires accepted == AcceptedAfter(rs, i)
    requires 500 * commits <= |accepted| < 500 * commits + 500
    requires fault.None? || fault.value.at >= commits
    ensures Accepted(rs) == accepted
    ensures AsyncOutcome(fileName, true, |Accepted(rs)|, LineError(rs), fault) == Outcome(500 * commits, Some(rs[i].error))
  {
    StopAt(rs, i);
    AsyncLineErrorExit(fileName, |accepted|, rs[i].error, fault, commits);
  }

  /** A background run stopped by the failing commit of its batch `commits`,
      filled after `i + 1` lines. */
  lemma AsyncStopsAtCommit(fileName: string, rs: seq<LineResult>, fault: Option<StoreFailure>, i: nat,
                           accepted: seq<LogRecord>, commits: nat)
    requires i + 1 <= FirstFault(rs)
    requires accepted == AcceptedAfter(rs, i + 1)
    requires FailsAt(fault, commits) && |accepted| == 500 * (commits + 1)
    ensures |accepted| <= |Accepted(rs)|
    ensures Accepted(rs)[..500 * commits] == accepted[..500 * commits]
    ensures AsyncOutcome(fileName, true, |Accepted(rs)|, LineError(rs), fault) ==
      Outcome(500 * commits, Some(DatabaseError(fault.value.message)))
  {
    AcceptedExtends(rs, i + 1);
    AsyncBatchFailExit(fileName, |Accepted(rs)|, LineError(rs), fault, commits);
    assert Accepted(rs)[..500 * commits] == accepted[..500 * commits];
  }

  /** A background run that read every line: its last partial batch fails to commit. */
  lemma AsyncStopsAtFlush(fileName: string, rs: seq<LineResult>, fault: Option<StoreFailure>, commits: nat)
    requires LineError(rs).None? && FailsAt(fault, commits)
    requires 500 * commits < |Accepted(rs)| < 500 * commits + 500
    ensures AsyncOutcome(fileName, true, |Accepted(rs)|, LineError(rs), fault) ==
      Outcome(500 * commits, Some(DatabaseError(fault.value.message)))
  {
    AsyncFlushFailExit(fileName, |Accepted(rs)|, fault, commits);
  }

  /** A background run that read every line and committed every row after
      `commits` commits: only the commit of the record count is left. */
  lemma AsyncFinishes(fileName: string, rs: seq<LineResult>, fault: Option<StoreFailure>, commits: nat)
    requires LineError(rs).None?
    requires |Accepted(rs)| <= 500 * commits < |Accepted(rs)| + 500
    requires fault.None? || fault.value.at >= commits
    ensures AsyncOutcome(fileName, true, |Accepted(rs)|, LineError(rs), fault) ==
      if FailsAt(fault, commits) then Outcome(|Accepted(rs)|, Some(DatabaseError(fault.value.message)))
      else Outcome(|Accepted(rs)|, None)
  {
    AsyncFinishExit(fileName, |Accepted(rs)|, fault, commits);
  }

  /** A synchronous run that read every line: the last commit stores the
      remaining rows, or fails and stores none of them. */
  lemma SyncFinishes(rs: seq<LineResult>, fault: Option<StoreFailure>, commits: nat)
    requires LineError(rs).None?
    requires 1000 * commits <= |Accepted(rs)| < 1000 * commits + 1000
    requires fault.None? || fault.value.at >= commits
    ensures SyncOutcome(|Accepted(rs)|, LineError(rs), fault) ==
      if FailsAt(fault, commits) then Outcome(1000 * commits, Some(DatabaseError(fault.value.message)))
      else Outcome(|Accepted(rs)|, None)
  {
    SyncFinishExit(|Accepted(rs)|, fault, commits);
  }

  /** The same two stops for the synchronous run. */
  lemma SyncStopsAtLine(rs: seq<LineResult>, fault: Option<StoreFailure>, i: nat, accepted: seq<LogRecord>, commits: nat)
    requires i < |rs| && i <= FirstFault(rs) && rs[i].Failure?
    requires accepted == AcceptedAfter(rs, i)
    requires 1000 * commits <= |accepted| < 1000 * commits + 1000
    requires fault.None? || fault.value.at >= commits
    ensures Accepted(rs) == accepted
    ensures SyncOutcome(|Accepted(rs)|, LineError(rs), fault) == Outcome(1000 * commits, Some(rs[i].error))
  {
    StopAt(rs, i);
    SyncLineErrorExit(|accepted|, rs[i].error, fault, commits);
  }

  lemma SyncStopsAtCommit(rs: seq<LineResult>, fault: Option<StoreFailure>, i: nat, accepted: seq<LogRecord>, commits: nat)
    requires i + 1 <= FirstFault(rs)
    requires accepted == AcceptedAfter(rs, i + 1)
    requires FailsAt(fault, commits) && |accepted| == 1000 * (commits + 1)
    ensures |accepted| <= |Accepted(rs)|
    ensures Accepted(rs)[..1000 * commits] == accepted[..1000 * commits]
    ensures SyncOutcome(|Accepted(rs)|, LineError(rs), fault) == Outcome(1000 * commits, Some(DatabaseError(fault.value.message)))
  {
    AcceptedExtends(rs, i + 1);
    SyncBatchFailExit(|Accepted(rs)|, LineError(rs), fault, commits);
    assert Accepted(rs)[..1000 * commits] == accepted[..1000 * commits];
  }

  /** Writing an entry twice leaves the second. */
  lemma Overwrite(m: map<string, Entry>, k: string, a: Entry, b: Entry)
    ensures m[k := a][k := b] == m[k := b]
  {
  }

  // ---------------------------------------------------------------------------
  // Rows buffered by a run
  // ---------------------------------------------------------------------------

  /** The state of a run after it accepted `accepted`: `processedLogs` holds
      their keys, the first `committed` of them are stored in `logs` on top of
      `base`, and `pending` holds the rows of the others, not yet committed. */
  ghost predicate Pending(logs: seq<Row>, base: seq<Row>, accepted: seq<LogRecord>, processedLogs: set<Key>,
                          pending: seq<Row>, committed: nat, fileName: string, now: string)
  {
    && processedLogs == KeysOf(accepted)
    && committed + |pending| == |accepted|
    && pending == RowsOf(accepted[committed..], fileName, now)
    && logs == base + RowsOf(accepted[..committed], fileName, now)
  }

  /** As `Pending`, for a run that commits every `size` rows: `commits`
      commits so far, and fewer than `size` rows waiting. */
  ghost predicate Batched(logs: seq<Row>, base: seq<Row>, accepted: seq<LogRecord>, processedLogs: set<Key>,
                          pending: seq<Row>, committed: nat, commits: nat, size: nat, fileName: string, now: string)
  {
    && Pending(logs, base, accepted, processedLogs, pending, committed, fileName, now)
    && committed == size * commits
    && |pending| < size
  }

  /** The batch invariant of both runs after `i` lines: every key of
      `processed_logs` is counted once, in the record count or in the batch;
      the batch holds fewer than `size` rows; and the store holds the base rows
      and the counted ones. */
  lemma BatchInvariant(logs: seq<Row>, base: seq<Row>, rs: seq<LineResult>, i: nat, processedLogs: set<Key>,
                       pending: seq<Row>, recordCount: nat, commits: nat, size: nat, fileName: string, now: string)
    requires i <= |rs|
    requires Batched(logs, base, AcceptedAfter(rs, i), processedLogs, pending, recordCount, commits, size, fileName, now)
    ensures recordCount + |pending| == |processedLogs|
    ensures |pending| < size
    ensures |logs| == |base| + recordCount
  {
    DedupDistinct(Parsed(rs[..i]));
    DistinctKeysCount(AcceptedAfter(rs, i));
  }

  /** Accepting a record with a new key adds its row to the pending ones. */
  lemma {:induction false} PendingAppend(logs: seq<Row>, base: seq<Row>, accepted: seq<LogRecord>, processedLogs: set<Key>,
                      pending: seq<Row>, committed: nat, record: LogRecord, fileName: string, now: string)
    requires Pending(logs, base, accepted, processedLogs, pending, committed, fileName, now)
    requires KeyOf(record) !in processedLogs
    ensures Pending(logs, base, accepted + [record], processedLogs + {KeyOf(record)},
                    pending + [Row(fileName, record, now)], committed, fileName, now)
  {
    var accepted' := accepted + [record];
    KeysOfSnoc(accepted, record);
    assert accepted[committed..] + [record] == accepted'[committed..];
    RowsOfSnoc(accepted[committed..], record, fileName, now);
    assert accepted[..committed] == accepted'[..committed];
  }

  /** Committing stores the pending rows: every accepted record is then stored. */
  lemma {:induction false} StoredThenWaiting(base: seq<Row>, accepted: seq<LogRecord>, committed: nat, fileName: string, now: string)
    requires committed <= |accepted|
    ensures base + RowsOf(accepted[..committed], fileName, now) + RowsOf(accepted[committed..], fileName, now)
         == base + RowsOf(accepted, fileName, now)
  {
    var stored, waiting := RowsOf(accepted[..committed], fileName, now), RowsOf(accepted[committed..], fileName, now);
    RowsOfSplit(accepted, committed, fileName, now);
    assert base + stored + waiting == base + (stored + waiting);
  }

  /** After the commit nothing is pending. */
  lemma {:induction false} PendingFlush(logs: seq<Row>, base: seq<Row>, accepted: seq<LogRecord>, processedLogs: set<Key>,
                     pending: seq<Row>, committed: nat, fileName: string, now: string)
    requires Pending(logs, base, accepted, processedLogs, pending, committed, fileName, now)
    ensures logs + pending == base + RowsOf(accepted, fileName, now)
    ensures Pending(logs + pending, base, accepted, processedLogs, [], |accepted|, fileName, now)
  {
    StoredThenWaiting(base, accepted, committed, fileName, now);
    assert accepted[..|accepted|] == accepted;
    assert accepted[|accepted|..] == [];
  }

  // ---------------------------------------------------------------------------
  // The analyser's state and the runs
  // ---------------------------------------------------------------------------

  /** The in-memory status dictionary and the two tables. */
  class LogAnalyser {
    var processingStatus: map<string, Entry>
    var files: map<string, int>
    var logs: seq<Row>

    constructor ()
      ensures processingStatus == map[] && files == map[] && logs == []
    {
      processingStatus, files, logs := map[], map[], [];
    }

    /** One parsed record of a background run: skipped when its key was seen,
        otherwise buffered, and the batch committed once it holds 500 rows.
        The commit may raise; the batch is then not stored. */
    method Keep(record: LogRecord, fileName: string, now: string, fault: Option<StoreFailure>,
                processedLogs: set<Key>, batch: seq<Row>, recordCount: nat, commits: nat,
                ghost base: seq<Row>, ghost accepted: seq<LogRecord>)
      returns (processedLogs': set<Key>, batch': seq<Row>, recordCount': nat, commits': nat,
               raised: Option<Exception>, ghost accepted': seq<LogRecord>)
      requires Batched(logs, base, accepted, processedLogs, batch, recordCount, commits, 500, fileName, now)
      requires fault.None? || fault.value.at >= commits
      modifies this`logs
      ensures accepted' == if KeyOf(record) in KeysOf(accepted) then accepted else accepted + [record]
      ensures raised.None? ==> Batched(logs, base, accepted', processedLogs', batch', recordCount', commits', 500, fileName, now)
      ensures raised.None? ==> fault.None? || fault.value.at >= commits'
      ensures var added := if KeyOf(record) in processedLogs then [] else [Row(fileName, record, now)];
        raised.None? ==>
          if |batch + added| == 500 then batch' == [] && logs == old(logs) + (batch + added) && recordCount' == recordCount + 500
          else batch' == batch + added && logs == old(logs) && recordCount' == recordCount
      ensures raised.Some? ==>
        && FailsAt(fault, commits) && raised == Some(DatabaseError(fault.value.message))
        && commits' == commits && |accepted'| == 500 * (commits + 1)
        && logs == old(logs) == base + RowsOf(accepted'[..500 * commits], fileName, now)
    {
      processedLogs', batch', recordCount', commits', raised, accepted' := processedLogs, batch, recordCount, commits, None, accepted;
      var key := KeyOf(record);
      if key in processedLogs {
        return;
      }
      PendingAppend(logs, base, accepted, processedLogs, batch, recordCount, record, fileName, now);
      processedLogs' := processedLogs + {key};
      batch' := batch + [Row(fileName, record, now)];
      accepted' := accepted + [record];
      if |batch'| >= 500 {
        if FailsAt(fault, commits) {
          raised := Some(DatabaseError(fault.value.message));
          return;
        }
        PendingFlush(logs, base, accepted', processedLogs', batch', recordCount, fileName, now);
        logs := logs + batch';
        recordCount' := recordCount + |batch'|;
        batch' := [];
        commits' := commits + 1;
      }
    }

    /** One line of a background run after the progress update: parsed,
        then its record, if any, handed to `Keep`. The run stops when the
        parse or a commit raises; its outcome is then known. */
    method ReadLine(fileName: string, lines: seq<string>, now: string, fault: Option<StoreFailure>, i: nat,
                    processedLogs: set<Key>, batch: seq<Row>, recordCount: nat, commits: nat,
                    ghost base: seq<Row>, ghost accepted: seq<LogRecord>)
      returns (processedLogs': set<Key>, batch': seq<Row>, recordCount': nat, commits': nat,
               raised: Option<Exception>, ghost accepted': seq<LogRecord>)
      requires i < |lines| && i <= FirstFault(Results(lines)) && accepted == AcceptedAfter(Results(lines), i)
      requires Batched(logs, base, accepted, processedLogs, batch, recordCount, commits, 500, fileName, now)
      requires fault.None? || fault.value.at >= commits
      modifies this`logs
      ensures var rs := Results(lines);
        raised.None? ==>
          && i + 1 <= FirstFault(rs) && accepted' == AcceptedAfter(rs, i + 1)
          && Batched(logs, base, accepted', processedLogs', batch', recordCount', commits', 500, fileName, now)
          && (fault.None? || fault.value.at >= commits')
      ensures var rs, o := Results(lines), AsyncRun(fileName, true, lines, fault);
        raised.Some? ==> raised == o.raised && logs == base + RowsOf(Accepted(rs)[..o.stored], fileName, now)
    {
      ghost var rs := Results(lines);
      processedLogs', batch', recordCount', commits', raised, accepted' := processedLogs, batch, recordCount, commits, None, accepted;
      var parsed := ParseLine(lines, i);
      if parsed.Failure? {
        raised := Some(parsed.error);
        AsyncStopsAtLine(fileName, rs, fault, i, accepted, commits);
        return;
      }
      AcceptNext(rs, i);
      Continue(rs, i);
      if parsed.value.Some? {
        processedLogs', batch', recordCount', commits', raised, accepted' :=
          Keep(parsed.value.value, fileName, now, fault, processedLogs, batch, recordCount, commits, base, accepted);
        if raised.Some? {
          AsyncStopsAtCommit(fileName, rs, fault, i, accepted', commits);
        }
      }
    }

    /** The progress update of a background run after it read line `count`
        of `totalLines`: every 100 lines, the percentage read goes into the
        entry. */
    method ReportProgress(fileName: string, count: nat, totalLines: nat, ghost before: map<string, Entry>,
                          ghost e0: Entry, ghost progress: seq<int>)
      returns (ghost progress': seq<int>)
      requires 0 < count <= totalLines && progress == ProgressWrites(totalLines, count - 1)
      requires processingStatus == before[fileName := Running(e0, totalLines, progress)]
      modifies this`processingStatus
      ensures progress' == ProgressWrites(totalLines, count)
      ensures processingStatus == before[fileName := Running(e0, totalLines, progress')]
    {
      progress' := progress;
      if count % 100 == 0 {
        var percent := count * 100 / totalLines;
        Overwrite(before, fileName, Running(e0, totalLines, progress), Running(e0, totalLines, progress).(progress := Some(percent)));
        processingStatus := processingStatus[fileName := processingStatus[fileName].(progress := Some(percent))];
        progress' := progress + [percent];
      }
    }

    /** One pass of the line loop of `process_log_file_async`: the progress
        update for line `count`, then the line itself; when it raises, the
        entry becomes the error entry. */
    method ReadStep(fileName: string, lines: seq<string>, now: string, fault: Option<StoreFailure>, i: nat, count: nat,
                    processedLogs: set<Key>, batch: seq<Row>, recordCount: nat, commits: nat,
                    ghost base: seq<Row>, ghost accepted: seq<LogRecord>,
                    ghost before: map<string, Entry>, ghost e0: Entry, ghost progress: seq<int>)
      returns (processedLogs': set<Key>, batch': seq<Row>, recordCount': nat, commits': nat,
               raised: Option<Exception>, ghost accepted': seq<LogRecord>, ghost progress': seq<int>)
      requires count == i + 1 && i < |lines| && i <= FirstFault(Results(lines)) && accepted == AcceptedAfter(Results(lines), i)
      requires Batched(logs, base, accepted, processedLogs, batch, recordCount, commits, 500, fileName, now)
      requires fault.None? || fault.value.at >= commits
      requires progress == ProgressWrites(|lines|, i)
      requires processingStatus == before[fileName := Running(e0, |lines|, progress)]
      modifies this`logs, this`processingStatus
      ensures progress' == ProgressWrites(|lines|, count)
      ensures var rs := Results(lines);
        raised.None? ==>
          && processingStatus == before[fileName := Running(e0, |lines|, progress')]
          && count <= FirstFault(rs) && accepted' == AcceptedAfter(rs, count)
          && Batched(logs, base, accepted', processedLogs', batch', recordCount', commits', 500, fileName, now)
          && (fault.None? || fault.value.at >= commits')
      ensures var rs, o := Results(lines), AsyncRun(fileName, true, lines, fault);
        raised.Some? ==>
          && processingStatus == before[fileName := ErrorEntry(raised.value)]
          && raised == o.raised && logs == base + RowsOf(Accepted(rs)[..o.stored], fileName, now)
    {
      progress' := ReportProgress(fileName, count, |lines|, before, e0, progress);
      processedLogs', batch', recordCount', commits', raised, accepted' :=
        ReadLine(fileName, lines, now, fault, i, processedLogs, batch, recordCount, commits, base, accepted);
      if raised.Some? {
        Overwrite(before, fileName, Running(e0, |lines|, progress'), ErrorEntry(raised.value));
        processingStatus := processingStatus[fileName := ErrorEntry(raised.value)];
      }
    }

    /** The line loop of `process_log_file_async`: reads every line, updates
        the progress of the entry every 100 lines, and hands the line to
        `ReadLine`. It stops at the first line that raises or commit that
        fails, with the run's outcome then known; otherwise it leaves the last
        partial batch buffered. `progress` is the sequence of values written
        into the entry, `linesRead` the number of lines read. */
    method ReadLines(fileName: string, lines: seq<string>, now: string, fault: Option<StoreFailure>,
                     totalLines: nat, ghost e0: Entry)
      returns (batch: seq<Row>, recordCount: nat, commits: nat, raised: Option<Exception>,
               ghost progress: seq<int>, ghost linesRead: nat)
      requires totalLines == |lines|
      requires fileName in processingStatus && processingStatus[fileName] == Running(e0, |lines|, [])
      modifies this`logs, this`processingStatus
      ensures linesRead <= |lines| && progress == ProgressWrites(|lines|, linesRead)
      ensures raised.None? ==> processingStatus == old(processingStatus)[fileName := Running(e0, |lines|, progress)]
      ensures raised.Some? ==> processingStatus == old(processingStatus)[fileName := ErrorEntry(raised.value)]
      ensures var rs, o := Results(lines), AsyncRun(fileName, true, lines, fault);
        raised.Some? ==> raised == o.raised && logs == old(logs) + RowsOf(Accepted(rs)[..o.stored], fileName, now)
      ensures var rs := Results(lines);
        raised.None? ==>
          && linesRead == |lines| && LineError(rs).None?
          && Batched(logs, old(logs), Accepted(rs), KeysOf(Accepted(rs)), batch, recordCount, commits, 500, fileName, now)
          && (fault.None? || fault.value.at >= commits)
    {
      progress, linesRead := [], 0;
      batch, recordCount, commits, raised := [], 0, 0, None;
      var processedLogs: set<Key> := {};
      var processedLineCount := 0;
      ghost var base := logs;
      ghost var rs := Results(lines);
      ghost var accepted: seq<LogRecord> := [];
      assert rs[..0] == [];
      var i := 0;
      while i < |lines|
        invariant i <= |rs| == |lines| && i <= FirstFault(rs)
        invariant processedLineCount == i == linesRead
        invariant accepted == AcceptedAfter(rs, i)
        invariant Batched(logs, base, accepted, processedLogs, batch, recordCount, commits, 500, fileName, now)
        invariant fault.None? || fault.value.at >= commits
        invariant progress == ProgressWrites(|lines|, i)
        invariant processingStatus == old(processingStatus)[fileName := Running(e0, |lines|, progress)]
        invariant raised.None?
      {
        processedLineCount := processedLineCount + 1;
        linesRead := processedLineCount;
        processedLogs, batch, recordCount, commits, raised, accepted, progress :=
          ReadStep(fileName, lines, now, fault, i, processedLineCount, processedLogs, batch, recordCount, commits,
                   base, accepted, old(processingStatus), e0, progress);
        if raised.Some? {
          return;
        }
        i := i + 1;
      }
      assert i == |rs|;
      ReadAll(rs);
      assert accepted == Accepted(rs);
    }

    /** `process_log_file_async`: the line count goes into the entry (a
        `KeyError` when the file has none), the lines are read, the last batch
        and the record count are committed, and the entry ends completed or
        with the error. `progress` is the sequence of values written into the
        entry, `linesRead` the line count when the run stopped. */
    method ProcessLogFileAsync(fileName: string, lines: seq<string>, now: string, fault: Option<StoreFailure>)
      returns (ghost progress: seq<int>, ghost linesRead: nat)
      modifies this
      ensures linesRead <= |lines| && progress == ProgressWrites(|lines|, linesRead)
      ensures var o := AsyncRun(fileName, fileName in old(processingStatus), lines, fault);
        && logs == old(logs) + RowsOf(Accepted(Results(lines))[..o.stored], fileName, now)
        && files == (if o.raised.None? && fileName in old(files) then old(files)[fileName := o.stored] else old(files))
        && processingStatus == old(processingStatus)[fileName := FinalEntry(o, |lines|)]
        && (o.raised.None? ==> linesRead == |lines|)
    {
      progress, linesRead := [], 0;
      if fileName !in processingStatus {
        processingStatus := processingStatus[fileName := ErrorEntry(KeyError(fileName))];
        assert Accepted(Results(lines))[..0] == [];
        return;
      }
      var totalLines := 0;
      for j := 0 to |lines|
        invariant totalLines == j
      {
        totalLines := totalLines + 1;
      }
      ghost var e0 := processingStatus[fileName];
      ghost var o := AsyncRun(fileName, true, lines, fault);
      ghost var accepted := Accepted(Results(lines));
      processingStatus := processingStatus[fileName := processingStatus[fileName].(total := Some(totalLines))];
      var batch, recordCount, commits, raised;
      batch, recordCount, commits, raised, progress, linesRead := ReadLines(fileName, lines, now, fault, totalLines, e0);
      if raised.Some? {
        Overwrite(old(processingStatus), fileName, Running(e0, |lines|, []), FinalEntry(o, |lines|));
        return;
      }
      Overwrite(old(processingStatus), fileName, Running(e0, |lines|, []), Running(e0, |lines|, progress));
      Finish(fileName, lines, now, fault, totalLines, batch, recordCount, commits, old(logs), old(processingStatus), e0, progress);
    }

    /** The commit of the last, partial batch of a background run, if there is
        one. On failure the batch is not stored and the run's outcome is known;
        otherwise every accepted row is stored, `commits` counting this commit. */
    method FlushLast(fileName: string, lines: seq<string>, now: string, fault: Option<StoreFailure>,
                     batch: seq<Row>, recordCount: nat, commits: nat, ghost base: seq<Row>)
      returns (recordCount': nat, commits': nat, raised: Option<Exception>)
      requires LineError(Results(lines)).None?
      requires Batched(logs, base, Accepted(Results(lines)), KeysOf(Accepted(Results(lines))),
                       batch, recordCount, commits, 500, fileName, now)
      requires fault.None? || fault.value.at >= commits
      modifies this`logs
      ensures var accepted := Accepted(Results(lines));
        raised.None? ==>
          && logs == base + RowsOf(accepted, fileName, now) && recordCount' == |accepted|
          && |accepted| <= 500 * commits' < |accepted| + 500 && (fault.None? || fault.value.at >= commits')
      ensures var o := AsyncRun(fileName, true, lines, fault);
        raised.Some? ==> raised == o.raised && logs == base + RowsOf(Accepted(Results(lines))[..o.stored], fileName, now)
    {
      ghost var rs := Results(lines);
      ghost var accepted := Accepted(rs);
      recordCount', commits', raised := recordCount, commits, None;
      if |batch| > 0 {
        if FailsAt(fault, commits) {
          AsyncStopsAtFlush(fileName, rs, fault, commits);
          raised := Some(DatabaseError(fault.value.message));
          return;
        }
        PendingFlush(logs, base, accepted, KeysOf(accepted), batch, recordCount, fileName, now);
        logs := logs + batch;
        recordCount' := recordCount + |batch|;
        commits' := commits + 1;
      } else {
        assert accepted[..recordCount] == accepted;
      }
    }

    /** The end of `process_log_file_async` once every line was read: the
        last partial batch is committed, then the record count, and the entry
        becomes completed, or holds the error of the commit that fails. */
    method Finish(fileName: string, lines: seq<string>, now: string, fault: Option<StoreFailure>, totalLines: nat,
                  batch: seq<Row>, recordCount: nat, commits: nat,
                  ghost base: seq<Row>, ghost before: map<string, Entry>, ghost e0: Entry, ghost progress: seq<int>)
      requires totalLines == |lines| && LineError(Results(lines)).None?
      requires Batched(logs, base, Accepted(Results(lines)), KeysOf(Accepted(Results(lines))),
                       batch, recordCount, commits, 500, fileName, now)
      requires fault.None? || fault.value.at >= commits
      requires processingStatus == before[fileName := Running(e0, |lines|, progress)]
      modifies this
      ensures var o := AsyncRun(fileName, true, lines, fault);
        && logs == base + RowsOf(Accepted(Results(lines))[..o.stored], fileName, now)
        && files == (if o.raised.None? && fileName in old(files) then old(files)[fileName := o.stored] else old(files))
        && processingStatus == before[fileName := FinalEntry(o, |lines|)]
    {
      ghost var o := AsyncRun(fileName, true, lines, fault);
      Overwrite(before, fileName, Running(e0, |lines|, progress), FinalEntry(o, |lines|));
      var count, committed, raised := FlushLast(fileName, lines, now, fault, batch, recordCount, commits, base);
      if raised.Some? {
        processingStatus := processingStatus[fileName := ErrorEntry(raised.value)];
        return;
      }
      ghost var accepted := Accepted(Results(lines));
      AsyncFinishes(fileName, Results(lines), fault, committed);
      assert accepted[..|accepted|] == accepted;
      if FailsAt(fault, committed) {
        assert o.raised == Some(DatabaseError(fault.value.message)) && o.stored == count;
        processingStatus := processingStatus[fileName := ErrorEntry(DatabaseError(fault.value.message))];
        return;
      }
      assert o == Outcome(count, None);
      if fileName in files {
        files := files[fileName := count];
      }
      processingStatus := processingStatus[fileName := CompletedEntry(totalLines, count)];
    }

    /** One parsed record of a synchronous run: skipped when its key was
        seen, otherwise inserted, and committed with the rows before it when
        the record count reaches a multiple of 1000. The commit may raise; the
        rows since the last commit are then not stored. */
    method SyncKeep(record: LogRecord, fileName: string, now: string, fault: Option<StoreFailure>,
                    processedLogs: set<Key>, pending: seq<Row>, recordCount: nat, commits: nat,
                    ghost base: seq<Row>, ghost accepted: seq<LogRecord>)
      returns (processedLogs': set<Key>, pending': seq<Row>, recordCount': nat, commits': nat,
               raised: Option<Exception>, ghost accepted': seq<LogRecord>)
      requires Batched(logs, base, accepted, processedLogs, pending, 1000 * commits, commits, 1000, fileName, now)
      requires recordCount == |accepted|
      requires fault.None? || fault.value.at >= commits
      modifies this`logs
      ensures accepted' == if KeyOf(record) in KeysOf(accepted) then accepted else accepted + [record]
      ensures raised.None? ==>
        && Batched(logs, base, accepted', processedLogs', pending', 1000 * commits', commits', 1000, fileName, now)
        && recordCount' == |accepted'| && (fault.None? || fault.value.at >= commits')
      ensures raised.Some? ==>
        && FailsAt(fault, commits) && raised == Some(DatabaseError(fault.value.message))
        && |accepted'| == 1000 * (commits + 1)
        && logs == old(logs) == base + RowsOf(accepted'[..1000 * commits], fileName, now)
    {
      processedLogs', pending', recordCount', commits', raised, accepted' := processedLogs, pending, recordCount, commits, None, accepted;
      var key := KeyOf(record);
      if key in processedLogs {
        return;
      }
      PendingAppend(logs, base, accepted, processedLogs, pending, 1000 * commits, record, fileName, now);
      processedLogs' := processedLogs + {key};
      pending' := pending + [Row(fileName, record, now)];
      accepted' := accepted + [record];
      recordCount' := recordCount + 1;
      SyncCommitsWhenFull(commits, |pending'|);
      if recordCount' % 1000 == 0 {
        if FailsAt(fault, commits) {
          raised := Some(DatabaseError(fault.value.message));
          return;
        }
        PendingFlush(logs, base, accepted', processedLogs', pending', 1000 * commits, fileName, now);
        logs := logs + pending';
        pending' := [];
        commits' := commits + 1;
      }
    }

    /** One line of a synchronous run: parsed, then its record, if any, handed
        to `SyncKeep`. The run stops when the parse or a commit raises. */
    method SyncReadLine(fileName: string, lines: seq<string>, now: string, fault: Option<StoreFailure>, i: nat,
                        processedLogs: set<Key>, pending: seq<Row>, recordCount: nat, commits: nat,
                        ghost base: seq<Row>, ghost accepted: seq<LogRecord>)
      returns (processedLogs': set<Key>, pending': seq<Row>, recordCount': nat, commits': nat,
               raised: Option<Exception>, ghost accepted': seq<LogRecord>)
      requires i < |lines| && i <= FirstFault(Results(lines)) && accepted == AcceptedAfter(Results(lines), i)
      requires Batched(logs, base, accepted, processedLogs, pending, 1000 * commits, commits, 1000, fileName, now)
      requires recordCount == |accepted|
      requires fault.None? || fault.value.at >= commits
      modifies this`logs
      ensures var rs := Results(lines);
        raised.None? ==>
          && i + 1 <= FirstFault(rs) && accepted' == AcceptedAfter(rs, i + 1)
          && Batched(logs, base, accepted', processedLogs', pending', 1000 * commits', commits', 1000, fileName, now)
          && recordCount' == |accepted'| && (fault.None? || fault.value.at >= commits')
      ensures var rs, o := Results(lines), SyncRun(lines, fault);
        raised.Some? ==> raised == o.raised && logs == base + RowsOf(Accepted(rs)[..o.stored], fileName, now)
    {
      ghost var rs := Results(lines);
      processedLogs', pending', recordCount', commits', raised, accepted' := processedLogs, pending, recordCount, commits, None, accepted;
      var parsed := ParseLine(lines, i);
      if parsed.Failure? {
        raised := Some(parsed.error);
        SyncStopsAtLine(rs, fault, i, accepted, commits);
        return;
      }
      AcceptNext(rs, i);
      Continue(rs, i);
      if parsed.value.Some? {
        processedLogs', pending', recordCount', commits', raised, accepted' :=
          SyncKeep(parsed.value.value, fileName, now, fault, processedLogs, pending, recordCount, commits, base, accepted);
        if raised.Some? {
          SyncStopsAtCommit(rs, fault, i, accepted', commits);
        }
      } else {
        assert AcceptedAfter(rs, i + 1) == accepted;
      }
    }

    /** The line loop of `process_log_file`: stops at the first line that
        raises or commit that fails, with the run's outcome then known;
        otherwise it leaves the rows since the last commit uncommitted. */
    method SyncReadLines(fileName: string, lines: seq<string>, now: string, fault: Option<StoreFailure>)
      returns (pending: seq<Row>, recordCount: nat, commits: nat, raised: Option<Exception>)
      modifies this`logs
      ensures var rs, o := Results(lines), SyncRun(lines, fault);
        raised.Some? ==> raised == o.raised && logs == old(logs) + RowsOf(Accepted(rs)[..o.stored], fileName, now)
      ensures var rs := Results(lines);
        raised.None? ==>
          && LineError(rs).None? && recordCount == |Accepted(rs)|
          && Batched(logs, old(logs), Accepted(rs), KeysOf(Accepted(rs)), pending, 1000 * commits, commits, 1000, fileName, now)
          && (fault.None? || fault.value.at >= commits)
    {
      pending, recordCount, commits, raised := [], 0, 0, None;
      var processedLogs: set<Key> := {};
      ghost var base := logs;
      ghost var rs := Results(lines);
      ghost var accepted: seq<LogRecord> := [];
      assert rs[..0] == [];
      var i := 0;
      while i < |lines|
        invariant i <= |rs| == |lines| && i <= FirstFault(rs)
        invariant accepted == AcceptedAfter(rs, i) && recordCount == |accepted|
        invariant Batched(logs, base, accepted, processedLogs, pending, 1000 * commits, commits, 1000, fileName, now)
        invariant fault.None? || fault.value.at >= commits
        invariant raised.None?
      {
        processedLogs, pending, recordCount, commits, raised, accepted :=
          SyncReadLine(fileName, lines, now, fault, i, processedLogs, pending, recordCount, commits, base, accepted);
        if raised.Some? {
          return;
        }
        i := i + 1;
      }
      assert i == |rs|;
      ReadAll(rs);
      assert accepted == Accepted(rs);
      assert processedLogs == KeysOf(accepted);
    }

    /** `process_log_file`, the synchronous variant: one insert per new
        record, a commit each time the record count reaches a multiple of
        1000, and a last commit together with the record-count update. Returns
        the record count, or the exception that propagates. The status
        dictionary is not touched. */
    method ProcessLogFile(fileName: string, lines: seq<string>, now: string, fault: Option<StoreFailure>)
      returns (result: Result<nat, Exception>)
      modifies this`logs, this`files
      ensures var o := SyncRun(lines, fault);
        && logs == old(logs) + RowsOf(Accepted(Results(lines))[..o.stored], fileName, now)
        && files == (if o.raised.None? && fileName in old(files) then old(files)[fileName := o.stored] else old(files))
        && result == (if o.raised.None? then Success(o.stored) else Failure(o.raised.value))
    {
      ghost var base := logs;
      var pending, recordCount, commits, raised := SyncReadLines(fileName, lines, now, fault);
      if raised.Some? {
        return Failure(raised.value);
      }
      result := SyncFinish(fileName, lines, now, fault, pending, recordCount, commits, base);
    }

    /** The end of `process_log_file` once every line was read: the rows
        since the last commit are committed together with the record-count
        update, or that commit fails. */
    method SyncFinish(fileName: string, lines: seq<string>, now: string, fault: Option<StoreFailure>,
                      pending: seq<Row>, recordCount: nat, commits: nat, ghost base: seq<Row>)
      returns (result: Result<nat, Exception>)
      requires LineError(Results(lines)).None? && recordCount == |Accepted(Results(lines))|
      requires Batched(logs, base, Accepted(Results(lines)), KeysOf(Accepted(Results(lines))),
                       pending, 1000 * commits, commits, 1000, fileName, now)
      requires fault.None? || fault.value.at >= commits
      modifies this`logs, this`files
      ensures var o := SyncRun(lines, fault);
        && logs == base + RowsOf(Accepted(Results(lines))[..o.stored], fileName, now)
        && files == (if o.raised.None? && fileName in old(files) then old(files)[fileName := o.stored] else old(files))
        && result == (if o.raised.None? then Success(o.stored) else Failure(o.raised.value))
    {
      ghost var rs := Results(lines);
      ghost var accepted := Accepted(rs);
      ghost var o := SyncRun(lines, fault);
      assert o == SyncOutcome(|accepted|, LineError(rs), fault);
      SyncFinishes(rs, fault, commits);
      if FailsAt(fault, commits) {
        assert o == Outcome(1000 * commits, Some(DatabaseError(fault.value.message)));
        assert logs == base + RowsOf(accepted[..o.stored], fileName, now);
        return Failure(DatabaseError(fault.value.message));
      }
      assert o == Outcome(recordCount, None);
      PendingFlush(logs, base, accepted, KeysOf(accepted), pending, 1000 * commits, fileName, now);
      assert accepted[..o.stored] == accepted;
      assert logs + pending == base + RowsOf(accepted[..o.stored], fileName, now);
      logs := logs + pending;
      if fileName in files {
        files := files[fileName := recordCount];
      }
      return Success(recordCount);
    }

    /** `upload_file` before the run starts: a name that already has a row in
        `files` is replaced by the unique name for the upload's timestamp; the
        row is inserted with record count 0 (the insert fails, and the error is
        ignored, when a row with that name exists, the `file_name` column being
        unique); and the status entry is set to the started entry. The new name
        is not checked again. */
    method RegisterUpload(name: string, stamp: string) returns (stored: string)
      modifies this`files, this`processingStatus
      ensures stored == if name in old(files) then UniqueName(name, stamp) else name
      ensures files == if stored in old(files) then old(files) else old(files)[stored := 0]
      ensures stored in files
      ensures processingStatus == old(processingStatus)[stored := Started]
    {
      stored := name;
      if name in files {
        stored := UniqueName(name, stamp);
      }
      if stored !in files {
        files := files[stored := 0];
      }
      processingStatus := processingStatus[stored := Started];
    }

    /** `upload_file` with its background run: the upload is registered under
        the name it is stored with, and the run reads it. The run starts from
        the started entry, so it is never the unregistered case. */
    method UploadFile(name: string, stamp: string, lines: seq<string>, now: string, fault: Option<StoreFailure>)
      returns (stored: string, ghost progress: seq<int>)
      modifies this
      ensures stored == if name in old(files) then UniqueName(name, stamp) else name
      ensures var o, registered := AsyncRun(stored, true, lines, fault),
                                   (if stored in old(files) then old(files) else old(files)[stored := 0]);
        && logs == old(logs) + RowsOf(Accepted(Results(lines))[..o.stored], stored, now)
        && files == (if o.raised.None? then registered[stored := o.stored] else registered)
        && processingStatus == old(processingStatus)[stored := FinalEntry(o, |lines|)]
    {
      stored := RegisterUpload(name, stamp);
      ghost var linesRead;
      progress, linesRead := ProcessLogFileAsync(stored, lines, now, fault);
      Overwrite(old(processingStatus), stored, Started, FinalEntry(AsyncRun(stored, true, lines, fault), |lines|));
    }
  }
}
