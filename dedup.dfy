/** First-occurrence de-duplication of parsed log records on the key
    `(ip, timestamp, request_type, api, status_code)`: the set
    `processed_logs` of both ingestion loops. */
module FirstOccurrence {
  import opened LogParser

  datatype Key = Key(ip: string, timestamp: string, requestType: string, api: string, statusCode: nat)

  function KeyOf(r: LogRecord): Key {
    Key(r.ip, r.timestamp, r.requestType, r.api, r.statusCode)
  }

  /** The set of keys of `rs`. */
  function KeysOf(rs: seq<LogRecord>): set<Key>
    decreases |rs|
  {
    if rs == [] then {} else KeysOf(rs[..|rs| - 1]) + {KeyOf(rs[|rs| - 1])}
  }

  /** A key is in the set exactly when some record has it. */
  lemma {:induction false} KeysOfMembers(rs: seq<LogRecord>)
    ensures forall i :: 0 <= i < |rs| ==> KeyOf(rs[i]) in KeysOf(rs)
    ensures forall k :: k in KeysOf(rs) ==> exists i :: 0 <= i < |rs| && KeyOf(rs[i]) == k
    decreases |rs|
  {
    if rs != [] {
      var init := rs[..|rs| - 1];
      KeysOfMembers(init);
      forall k | k in KeysOf(rs) ensures exists i :: 0 <= i < |rs| && KeyOf(rs[i]) == k {
        if k in KeysOf(init) {
          var i :| 0 <= i < |init| && KeyOf(init[i]) == k;
          assert rs[i] == init[i];
        } else {
          assert KeyOf(rs[|rs| - 1]) == k;
        }
      }
      forall i | 0 <= i < |rs| ensures KeyOf(rs[i]) in KeysOf(rs) {
        if i < |rs| - 1 {
          assert rs[i] == init[i];
        }
      }
    }
  }

  lemma KeyOfIn(rs: seq<LogRecord>, i: nat)
    requires i < |rs|
    ensures KeyOf(rs[i]) in KeysOf(rs)
  {
    KeysOfMembers(rs);
  }

  /** The records a loop over `rs` keeps when it skips every record whose
      key is already in its set, and adds the key of every record it keeps. */
  function Dedup(rs: seq<LogRecord>): (d: seq<LogRecord>)
    decreases |rs|
  {
    if rs == [] then []
    else
      var d := Dedup(rs[..|rs| - 1]);
      if KeyOf(rs[|rs| - 1]) in KeysOf(d) then d else d + [rs[|rs| - 1]]
  }

  /** One more record: kept exactly when its key is new. */
  lemma DedupSnoc(rs: seq<LogRecord>, r: LogRecord)
    ensures Dedup(rs + [r]) == if KeyOf(r) in KeysOf(Dedup(rs)) then Dedup(rs) else Dedup(rs) + [r]
  {
    assert (rs + [r])[..|rs|] == rs;
  }

  lemma KeysOfSnoc(rs: seq<LogRecord>, r: LogRecord)
    ensures KeysOf(rs + [r]) == KeysOf(rs) + {KeyOf(r)}
  {
    assert (rs + [r])[..|rs|] == rs;
  }

  /** The set the loop keeps is the set of keys of the records it kept,
      and it is the set of keys of all records seen so far. */
  lemma {:induction false} DedupKeys(rs: seq<LogRecord>)
    ensures KeysOf(Dedup(rs)) == KeysOf(rs)
    decreases |rs|
  {
    if rs != [] {
      var init, r := rs[..|rs| - 1], rs[|rs| - 1];
      assert rs == init + [r];
      DedupKeys(init);
      KeysOfSnoc(init, r);
      KeysOfSnoc(Dedup(init), r);
    }
  }

  predicate DistinctKeys(d: seq<LogRecord>) {
    forall i, j :: 0 <= i < j < |d| ==> KeyOf(d[i]) != KeyOf(d[j])
  }

  /** No key is kept twice. */
  lemma {:induction false} DedupDistinct(rs: seq<LogRecord>)
    ensures DistinctKeys(Dedup(rs))
    decreases |rs|
  {
    if rs != [] {
      var init, r := rs[..|rs| - 1], rs[|rs| - 1];
      DedupDistinct(init);
      var d := Dedup(init);
      if KeyOf(r) !in KeysOf(d) {
        KeysOfMembers(d);
        var e := d + [r];
        forall i, j | 0 <= i < j < |e| ensures KeyOf(e[i]) != KeyOf(e[j]) {
          if j == |d| {
            assert KeyOf(d[i]) in KeysOf(d);
          }
        }
      }
    }
  }

  lemma {:induction false} DistinctKeysCount(d: seq<LogRecord>)
    requires DistinctKeys(d)
    ensures |KeysOf(d)| == |d|
    decreases |d|
  {
    if d != [] {
      var init, r := d[..|d| - 1], d[|d| - 1];
      assert d == init + [r];
      DistinctKeysCount(init);
      KeysOfSnoc(init, r);
      forall i | 0 <= i < |init| ensures KeyOf(init[i]) != KeyOf(r) {
        assert init[i] == d[i];
      }
      KeysOfMembers(init);
    }
  }

  /** As many records are kept as there are distinct keys. */
  lemma DedupCount(rs: seq<LogRecord>)
    ensures |Dedup(rs)| == |KeysOf(rs)|
  {
    DedupDistinct(rs);
    DistinctKeysCount(Dedup(rs));
    DedupKeys(rs);
  }

  // ---------------------------------------------------------------------------
  // An independent description: the first occurrence of each key
  // ---------------------------------------------------------------------------

  /** No earlier record has the key of record `i`. */
  predicate IsFirst(rs: seq<LogRecord>, i: nat)
    requires i < |rs|
  {
    forall j :: 0 <= j < i ==> KeyOf(rs[j]) != KeyOf(rs[i])
  }

  /** The indices below `n` of first occurrences, in increasing order. */
  function FirstIndices(rs: seq<LogRecord>, n: nat): (ix: seq<nat>)
    requires n <= |rs|
    ensures forall k :: 0 <= k < |ix| ==> ix[k] < n
    decreases n
  {
    if n == 0 then []
    else FirstIndices(rs, n - 1) + (if IsFirst(rs, n - 1) then [n - 1] else [])
  }

  function Select(rs: seq<LogRecord>, ix: seq<nat>): seq<LogRecord>
    requires forall k :: 0 <= k < |ix| ==> ix[k] < |rs|
  {
    seq(|ix|, k requires 0 <= k < |ix| => rs[ix[k]])
  }

  lemma SelectSnoc(rs: seq<LogRecord>, ix: seq<nat>, i: nat)
    requires forall k :: 0 <= k < |ix| ==> ix[k] < |rs|
    requires i < |rs|
    ensures Select(rs, ix + [i]) == Select(rs, ix) + [rs[i]]
  {
  }

  lemma {:induction false} FirstIndicesSorted(rs: seq<LogRecord>, n: nat)
    requires n <= |rs|
    ensures forall a, b :: 0 <= a < b < |FirstIndices(rs, n)| ==> FirstIndices(rs, n)[a] < FirstIndices(rs, n)[b]
    ensures forall i :: 0 <= i < n ==> (IsFirst(rs, i) <==> i in FirstIndices(rs, n))
    decreases n
  {
    if n > 0 {
      FirstIndicesSorted(rs, n - 1);
    }
  }

  /** A first occurrence extends the kept records by itself. */
  lemma FirstStep(rs: seq<LogRecord>, n: nat)
    requires 0 < n <= |rs| && IsFirst(rs, n - 1)
    requires Dedup(rs[..n - 1]) == Select(rs, FirstIndices(rs, n - 1))
    ensures Dedup(rs[..n]) == Select(rs, FirstIndices(rs, n))
  {
    var q, r := rs[..n - 1], rs[n - 1];
    assert rs[..n] == q + [r];
    DedupSnoc(q, r);
    DedupKeys(q);
    forall j | 0 <= j < |q| ensures KeyOf(q[j]) != KeyOf(r) {
      assert q[j] == rs[j];
    }
    KeysOfMembers(q);
    SelectSnoc(rs, FirstIndices(rs, n - 1), n - 1);
  }

  /** A repeated key leaves the kept records as they were. */
  lemma RepeatStep(rs: seq<LogRecord>, n: nat)
    requires 0 < n <= |rs| && !IsFirst(rs, n - 1)
    requires Dedup(rs[..n - 1]) == Select(rs, FirstIndices(rs, n - 1))
    ensures Dedup(rs[..n]) == Select(rs, FirstIndices(rs, n))
  {
    var q, r := rs[..n - 1], rs[n - 1];
    assert rs[..n] == q + [r];
    var j :| 0 <= j < n - 1 && KeyOf(rs[j]) == KeyOf(r);
    assert q[j] == rs[j];
    KeyOfIn(q, j);
    DedupKeys(q);
    assert KeyOf(r) in KeysOf(Dedup(q));
    DedupSnoc(q, r);
    assert Dedup(rs[..n]) == Dedup(q);
    assert FirstIndices(rs, n) == FirstIndices(rs, n - 1) + [];
  }

  /** A record extends the kept records by itself exactly when it is a first occurrence. */
  lemma NextStep(rs: seq<LogRecord>, n: nat)
    requires 0 < n <= |rs|
    requires Dedup(rs[..n - 1]) == Select(rs, FirstIndices(rs, n - 1))
    ensures Dedup(rs[..n]) == Select(rs, FirstIndices(rs, n))
  {
    if IsFirst(rs, n - 1) {
      FirstStep(rs, n);
    } else {
      RepeatStep(rs, n);
    }
  }

  /** The loop keeps exactly the first occurrence of each key, in line order.
      `Dedup` is computed over a prefix of the records; what the loop kept
      after `n` records does not depend on what comes later. */
  lemma {:induction false} DedupIsFirstOccurrences(rs: seq<LogRecord>, n: nat)
    requires n <= |rs|
    ensures Dedup(rs[..n]) == Select(rs, FirstIndices(rs, n))
    decreases n
  {
    if n > 0 {
      DedupIsFirstOccurrences(rs, n - 1);
      NextStep(rs, n);
    }
  }

  /** A record is kept before a later one exactly when the loop had seen its
      key first: what was kept over a prefix is a prefix of what is kept
      over the whole. */
  lemma {:induction false} DedupPrefix(rs: seq<LogRecord>, more: seq<LogRecord>)
    ensures |Dedup(rs)| <= |Dedup(rs + more)|
    ensures Dedup(rs + more)[..|Dedup(rs)|] == Dedup(rs)
    decreases |more|
  {
    if more == [] {
      assert rs + more == rs;
    } else {
      var init, r := more[..|more| - 1], more[|more| - 1];
      assert rs + more == (rs + init) + [r];
      DedupPrefix(rs, init);
      DedupSnoc(rs + init, r);
    }
  }
}
