/** `parse_apache_log`: one access-log line matched against the fixed pattern

      (\S+) (\S+) (\S+) \[([\w:/]+\s[+\-]\d{4})\] "(\S+) (\S+) (\S+)" (\d+) (\S+) "([^"]*)" "([^"]*)" (\S+)

    with `re.match`, then turned into a record of the twelve groups. The
    status code goes through `int()`, which on a `\d+` group raises only
    past Python's limit of 4300 digits; the response time goes through
    `float()`. Either exception propagates out of the parser. */
module LogParser {
  import opened Wrappers
  import opened PyBuiltins
  import opened Regex

  /** The dictionary `parse_apache_log` returns. The response time is kept as
      the token `float()` accepted, not as its floating-point value. */
  datatype LogRecord = LogRecord(
    ip: string,
    remoteLogName: string,
    userId: string,
    timestamp: string,
    requestType: string,
    api: string,
    protocol: string,
    statusCode: nat,
    bytes: string,
    referrer: string,
    userAgent: string,
    responseTime: string)

  function Plus(k: CharClass): Atom { Atom(k, 1, None) }
  function Star(k: CharClass): Atom { Atom(k, 0, None) }
  function Lit(c: char): Atom { Atom(Literal(c), 1, Some(1)) }

  /** The log pattern, one atom per repeated item or literal character:
      the three leading tokens and the bracketed timestamp (atoms 0 to 11),
      the quoted request (12 to 19), and the rest (20 to 33). */
  const HeadAtoms: seq<Atom> := [
    Plus(NonSpace), Lit(' '), Plus(NonSpace), Lit(' '), Plus(NonSpace), Lit(' '),
    Lit('['), Plus(WordColonSlash), Atom(Space, 1, Some(1)), Atom(PlusMinus, 1, Some(1)),
    Atom(Digit, 4, Some(4)), Lit(']')]
  const RequestAtoms: seq<Atom> := [
    Lit(' '), Lit('"'), Plus(NonSpace), Lit(' '), Plus(NonSpace), Lit(' '), Plus(NonSpace), Lit('"')]
  const TailAtoms: seq<Atom> := [
    Lit(' '), Plus(Digit), Lit(' '), Plus(NonSpace), Lit(' '),
    Lit('"'), Star(NotQuote), Lit('"'), Lit(' '), Lit('"'), Star(NotQuote), Lit('"'),
    Lit(' '), Plus(NonSpace)]
  const ApachePattern: seq<Atom> := HeadAtoms + RequestAtoms + TailAtoms

  /** Capturing group `g` (1 to 12) is made of the atoms in `GroupAtoms(g).0 .. GroupAtoms(g).1`. */
  function GroupAtoms(g: nat): (r: (nat, nat))
    requires 1 <= g <= 12
    ensures r.0 < r.1 <= |ApachePattern|
  {
    if g == 1 then (0, 1) else if g == 2 then (2, 3) else if g == 3 then (4, 5)
    else if g == 4 then (7, 11) else if g == 5 then (14, 15) else if g == 6 then (16, 17)
    else if g == 7 then (18, 19) else if g == 8 then (21, 22) else if g == 9 then (23, 24)
    else if g == 10 then (26, 27) else if g == 11 then (30, 31) else (33, 34)
  }

  /** `match.group(g)`: the text the atoms of group `g` consumed, together. */
  function Group(ws: seq<string>, g: nat): string
    requires |ws| == |ApachePattern| && 1 <= g <= 12
  {
    Concat(ws[GroupAtoms(g).0..GroupAtoms(g).1])
  }

  /** The record built from the pieces of a match, with the status code as
      `int()` converted it. */
  function RecordOf(ws: seq<string>, status: nat): LogRecord
    requires |ws| == |ApachePattern|
  {
    LogRecord(ws[0], ws[2], ws[4], ws[7] + ws[8] + ws[9] + ws[10], ws[14], ws[16], ws[18],
              status, ws[23], ws[26], ws[30], ws[33])
  }

  /** The second half of `parse_apache_log`, once the pattern has matched:
      the dictionary's values are computed in order, so `int()` of group 8
      raises first, then `float()` of group 12; otherwise the record is
      returned. As group 8 is a digit string, `int()` raises only past the
      digit limit and otherwise gives the string's decimal value. */
  function FromPieces(ws: seq<string>): (r: Result<Option<LogRecord>, Exception>)
    requires |ws| == |ApachePattern| && IsDigitString(ws[21])
    ensures r.Failure? <==> |ws[21]| > MaxStrDigits || !IsFloatLiteral(ws[33])
    ensures r.Failure? ==> r.error == if |ws[21]| > MaxStrDigits then IntLimitError(|ws[21]|) else FloatError(ws[33])
    ensures r.Success? ==> r == Success(Some(RecordOf(ws, DecimalValue(ws[21])))) && IsFloatLiteral(ws[33])
  {
    ParseIntOfDigits(ws[21]);
    match ParseInt(ws[21])
    case Failure(e) => Failure(e)
    case Success(status) =>
      if !IsFloatLiteral(ws[33]) then Failure(FloatError(ws[33]))
      else Success(Some(RecordOf(ws, status)))
  }

  /** `parse_apache_log(line)`: `Success(None)` when the pattern does not
      match, `Failure` when `float()` rejects the last group, else the record. */
  function ParseApacheLog(line: string): (r: Result<Option<LogRecord>, Exception>)
    ensures r.Failure? ==> r.error.ValueError?
    ensures r.Success? && r.value.Some? ==> IsFloatLiteral(r.value.value.responseTime)
  {
    var m := MatchFrom(ApachePattern, line);
    if m.None? then Success(None)
    else
      MatchFromFits(ApachePattern, line);
      FitsPiece(ApachePattern, line, m.value, 21);
      FromPieces(m.value)
  }

  // ---------------------------------------------------------------------------
  // What the parser returns
  // ---------------------------------------------------------------------------

  /** `None` exactly when the pattern does not match from the start of the line. */
  lemma ParseNoneIffNoMatch(line: string)
    ensures ParseApacheLog(line) == Success(None) <==> !Matches(ApachePattern, line)
  {
    MatchFromIsGreedy(ApachePattern, line);
  }

  lemma {:induction false} SingleGroup(ws: seq<string>, g: nat, k: nat)
    requires |ws| == |ApachePattern| && 1 <= g <= 12 && GroupAtoms(g) == (k, k + 1)
    ensures Group(ws, g) == ws[k]
  {
    assert ws[k..k + 1] == [ws[k]];
    assert Concat([ws[k]]) == ws[k] + Concat([]);
  }

  lemma {:induction false} GroupsOfPieces(ws: seq<string>)
    requires |ws| == |ApachePattern|
    ensures Group(ws, 1) == ws[0] && Group(ws, 2) == ws[2] && Group(ws, 3) == ws[4]
    ensures Group(ws, 4) == ws[7] + ws[8] + ws[9] + ws[10]
    ensures Group(ws, 5) == ws[14] && Group(ws, 6) == ws[16] && Group(ws, 7) == ws[18]
    ensures Group(ws, 8) == ws[21] && Group(ws, 9) == ws[23] && Group(ws, 10) == ws[26]
    ensures Group(ws, 11) == ws[30] && Group(ws, 12) == ws[33]
  {
    SingleGroup(ws, 1, 0);
    SingleGroup(ws, 2, 2);
    SingleGroup(ws, 3, 4);
    SingleGroup(ws, 5, 14);
    SingleGroup(ws, 6, 16);
    SingleGroup(ws, 7, 18);
    SingleGroup(ws, 8, 21);
    SingleGroup(ws, 9, 23);
    SingleGroup(ws, 10, 26);
    SingleGroup(ws, 11, 30);
    SingleGroup(ws, 12, 33);
    assert GroupAtoms(4) == (7, 11);
    var s := ws[7..11];
    assert s[1..] == ws[8..11] && ws[8..11][1..] == ws[9..11] && ws[9..11][1..] == ws[10..11];
    assert Concat(ws[10..11]) == ws[10] by {
      assert ws[10..11][1..] == [];
    }
    assert Concat(ws[9..11]) == ws[9] + ws[10];
    assert Concat(ws[8..11]) == ws[8] + (ws[9] + ws[10]);
    assert Concat(s) == ws[7] + (ws[8] + (ws[9] + ws[10]));
  }

  /** On a match, `parse_apache_log` works on the greedy match's pieces. */
  lemma {:induction false} ParseUsesGreedyMatch(line: string, ws: seq<string>)
    requires IsGreedyMatch(ApachePattern, line, ws)
    ensures |ws| == |ApachePattern| && IsDigitString(ws[21])
    ensures ParseApacheLog(line) == FromPieces(ws)
  {
    SearchFindsGreedyMatch(ApachePattern, line, ws);
    FitsPiece(ApachePattern, line, ws, 21);
  }

  /** On a match, the line raises the `int()` error when group 8 is longer
      than the digit limit, else the `float()` error when `float()` rejects
      group 12; otherwise every field is its group's text, taken from the
      greedy match, and the status code is the value of a digit string. */
  lemma {:induction false} ParseFieldsAreGroups(line: string, ws: seq<string>)
    requires IsGreedyMatch(ApachePattern, line, ws)
    ensures |ws| == |ApachePattern| && IsDigitString(Group(ws, 8))
    ensures |Group(ws, 8)| > MaxStrDigits ==> ParseApacheLog(line) == Failure(IntLimitError(|Group(ws, 8)|))
    ensures |Group(ws, 8)| <= MaxStrDigits && !IsFloatLiteral(Group(ws, 12)) ==>
      ParseApacheLog(line) == Failure(FloatError(Group(ws, 12)))
    ensures |Group(ws, 8)| <= MaxStrDigits && IsFloatLiteral(Group(ws, 12)) ==>
      ParseApacheLog(line).Success? && ParseApacheLog(line).value.Some? &&
      var r := ParseApacheLog(line).value.value;
      r.ip == Group(ws, 1) && r.remoteLogName == Group(ws, 2) && r.userId == Group(ws, 3) &&
      r.timestamp == Group(ws, 4) && r.requestType == Group(ws, 5) && r.api == Group(ws, 6) &&
      r.protocol == Group(ws, 7) && r.statusCode == DecimalValue(Group(ws, 8)) &&
      r.bytes == Group(ws, 9) && r.referrer == Group(ws, 10) && r.userAgent == Group(ws, 11) &&
      r.responseTime == Group(ws, 12)
  {
    ParseUsesGreedyMatch(line, ws);
    GroupsOfPieces(ws);
    if |ws[21]| <= MaxStrDigits && IsFloatLiteral(ws[33]) {
      assert ParseApacheLog(line) == Success(Some(RecordOf(ws, DecimalValue(ws[21]))));
    }
  }

  /** Each group is the substring of the line that starts after the text the
      earlier atoms consumed. */
  lemma {:induction false} GroupIsSubstring(line: string, ws: seq<string>, g: nat)
    requires Fits(ApachePattern, line, ws) && 1 <= g <= 12
    ensures var start := |Concat(ws[..GroupAtoms(g).0])|;
      start + |Group(ws, g)| <= |line| && Group(ws, g) == line[start..start + |Group(ws, g)|]
  {
    PiecesAreSubstring(ApachePattern, line, ws, GroupAtoms(g).0, GroupAtoms(g).1);
  }

  // ---------------------------------------------------------------------------
  // Parsing a line written in the log format gives back its fields
  // ---------------------------------------------------------------------------

  predicate IsToken(s: string) {
    AtomFits(Plus(NonSpace), s)
  }

  predicate NoQuote(s: string) {
    AtomFits(Star(NotQuote), s)
  }

  /** `[\w:/]+\s[+\-]\d{4}`, as in `10/Oct/2023:13:55:36 -0700`. */
  predicate IsTimestamp(ts: string) {
    |ts| >= 7 &&
    var n := |ts|;
    AtomFits(Plus(WordColonSlash), ts[..n - 6]) && IsSpace(ts[n - 6]) &&
    (ts[n - 5] == '+' || ts[n - 5] == '-') && AllDigits(ts[n - 4..])
  }

  /** A record whose fields the log format can carry. */
  predicate WellFormed(r: LogRecord) {
    IsToken(r.ip) && IsToken(r.remoteLogName) && IsToken(r.userId) && IsTimestamp(r.timestamp) &&
    IsToken(r.requestType) && IsToken(r.api) && IsToken(r.protocol) && IsToken(r.bytes) &&
    NoQuote(r.referrer) && NoQuote(r.userAgent) && IsToken(r.responseTime)
  }

  /** The line the server writes for a record: the leading tokens and the
      bracketed timestamp, the quoted request, and the rest. */
  function FormatLine(r: LogRecord): string {
    HeadText(r.ip, r.remoteLogName, r.userId, r.timestamp) +
    RequestText(r.requestType, r.api, r.protocol) +
    TailText(DecimalString(r.statusCode), r.bytes, r.referrer, r.userAgent, r.responseTime)
  }

  function HeadText(ip: string, logName: string, user: string, ts: string): string {
    ip + " " + logName + " " + user + " [" + ts + "]"
  }

  function RequestText(verb: string, api: string, protocol: string): string {
    " \"" + verb + " " + api + " " + protocol + "\""
  }

  function TailText(status: string, bytes: string, referrer: string, agent: string, rt: string): string {
    " " + status + " " + bytes + " \"" + referrer + "\" \"" + agent + "\" " + rt
  }

  /** The pieces a match of the pattern against `FormatLine(r)` consists of. */
  function Pieces(r: LogRecord): seq<string>
    requires |r.timestamp| >= 6
  {
    HeadPieces(r.ip, r.remoteLogName, r.userId, r.timestamp) +
    (RequestPieces(r.requestType, r.api, r.protocol) +
     TailPieces(DecimalString(r.statusCode), r.bytes, r.referrer, r.userAgent, r.responseTime))
  }

  function HeadPieces(ip: string, logName: string, user: string, ts: string): seq<string>
    requires |ts| >= 6
  {
    var n := |ts|;
    [ip, " ", logName, " ", user, " ", "[", ts[..n - 6], ts[n - 6..n - 5], ts[n - 5..n - 4], ts[n - 4..], "]"]
  }

  function RequestPieces(verb: string, api: string, protocol: string): seq<string> {
    [" ", "\"", verb, " ", api, " ", protocol, "\""]
  }

  function TailPieces(status: string, bytes: string, referrer: string, agent: string, rt: string): seq<string> {
    [" ", status, " ", bytes, " ", "\"", referrer, "\"", " ", "\"", agent, "\"", " ", rt]
  }

  /** The record rebuilt from those pieces is the record. */
  lemma {:induction false} RecordOfPieces(r: LogRecord)
    requires WellFormed(r)
    ensures |Pieces(r)| == |ApachePattern| && AllDigits(Pieces(r)[21])
    ensures Pieces(r)[21] == DecimalString(r.statusCode) && Pieces(r)[33] == r.responseTime
    ensures RecordOf(Pieces(r), r.statusCode) == r
  {
    var ws := Pieces(r);
    var ts := r.timestamp;
    var n := |ts|;
    assert ws[21] == DecimalString(r.statusCode) && ws[33] == r.responseTime;
    assert ts[..n - 6] + ts[n - 6..n - 5] + ts[n - 5..n - 4] + ts[n - 4..] == ts;
  }

  /** One step of the search, for a pattern written as its first atom and the rest. */
  lemma {:induction false} Exact(a: Atom, q: seq<Atom>, w: string, rest: string, ws: seq<string>)
    requires a.hi == Some(|w|) && AtomFits(a, w)
    requires MatchFrom(q, rest) == Some(ws)
    ensures MatchFrom([a] + q, w + rest) == Some([w] + ws)
  {
    assert ([a] + q)[1..] == q;
    StepExact([a] + q, w, rest, ws);
  }

  lemma {:induction false} Greedy(a: Atom, q: seq<Atom>, w: string, rest: string, ws: seq<string>)
    requires a.hi.None? && AtomFits(a, w)
    requires rest == [] || !InClass(a.cls, rest[0])
    requires MatchFrom(q, rest) == Some(ws)
    ensures MatchFrom([a] + q, w + rest) == Some([w] + ws)
  {
    assert ([a] + q)[1..] == q;
    StepGreedy([a] + q, w, rest, ws);
  }

  /** `" " + s` against ` (\S+)` followed by the pattern `q`. */
  lemma {:induction false} SpacedToken(q: seq<Atom>, s: string, t: string, w: seq<string>)
    requires IsToken(s) && (t == [] || IsSpace(t[0]))
    requires MatchFrom(q, t) == Some(w)
    ensures MatchFrom([Lit(' '), Plus(NonSpace)] + q, " " + s + t) == Some([" ", s] + w)
  {
    Greedy(Plus(NonSpace), q, s, t, w);
    Exact(Lit(' '), [Plus(NonSpace)] + q, " ", s + t, [s] + w);
    assert [Lit(' '), Plus(NonSpace)] + q == [Lit(' ')] + ([Plus(NonSpace)] + q);
    assert [" ", s] + w == [" "] + ([s] + w);
    assert " " + s + t == " " + (s + t);
  }

  /** `" " + s` against ` (\d+)` followed by the pattern `q`. */
  lemma {:induction false} SpacedDigits(q: seq<Atom>, s: string, t: string, w: seq<string>)
    requires IsDigitString(s) && |t| > 0 && t[0] == ' '
    requires MatchFrom(q, t) == Some(w)
    ensures MatchFrom([Lit(' '), Plus(Digit)] + q, " " + s + t) == Some([" ", s] + w)
  {
    Greedy(Plus(Digit), q, s, t, w);
    Exact(Lit(' '), [Plus(Digit)] + q, " ", s + t, [s] + w);
    assert [Lit(' '), Plus(Digit)] + q == [Lit(' ')] + ([Plus(Digit)] + q);
    assert [" ", s] + w == [" "] + ([s] + w);
    assert " " + s + t == " " + (s + t);
  }

  /** `" \"" + s + "\""` against ` "([^"]*)"` followed by the pattern `q`. */
  lemma {:induction false} SpacedQuoted(q: seq<Atom>, s: string, t: string, w: seq<string>)
    requires NoQuote(s)
    requires MatchFrom(q, t) == Some(w)
    ensures MatchFrom([Lit(' '), Lit('"'), Star(NotQuote), Lit('"')] + q, " \"" + s + "\"" + t)
         == Some([" ", "\"", s, "\""] + w)
  {
    var q3, w3, t3 := [Lit('"')] + q, ["\""] + w, "\"" + t;
    var q2, w2, t2 := [Star(NotQuote)] + q3, [s] + w3, s + t3;
    var q1, w1, t1 := [Lit('"')] + q2, ["\""] + w2, "\"" + t2;
    assert [Lit(' '), Lit('"'), Star(NotQuote), Lit('"')] + q == [Lit(' ')] + q1;
    assert " \"" + s + "\"" + t == " " + t1;
    assert [" ", "\"", s, "\""] + w == [" "] + w1;
    Exact(Lit('"'), q, "\"", t, w);
    Greedy(Star(NotQuote), q3, s, t3, w3);
    Exact(Lit('"'), q2, "\"", t2, w2);
    Exact(Lit(' '), q1, " ", t1, w1);
  }

  /** Atoms 20 to 33: status, bytes, referrer, user agent, response time. */
  lemma {:induction false} MatchTail(status: string, bytes: string, referrer: string, agent: string, rt: string, tail: string)
    requires IsDigitString(status) && IsToken(bytes) && NoQuote(referrer) && NoQuote(agent) && IsToken(rt)
    requires tail == [] || IsSpace(tail[0])
    ensures MatchFrom(TailAtoms, TailText(status, bytes, referrer, agent, rt) + tail)
         == Some(TailPieces(status, bytes, referrer, agent, rt))
  {
    var q0: seq<Atom>, w0: seq<string>, t0 := [], [], tail;
    var q1, w1, t1 := [Lit(' '), Plus(NonSpace)] + q0, [" ", rt] + w0, " " + rt + t0;
    var q2, w2, t2 := [Lit(' '), Lit('"'), Star(NotQuote), Lit('"')] + q1, [" ", "\"", agent, "\""] + w1, " \"" + agent + "\"" + t1;
    var q3, w3, t3 := [Lit(' '), Lit('"'), Star(NotQuote), Lit('"')] + q2, [" ", "\"", referrer, "\""] + w2, " \"" + referrer + "\"" + t2;
    var q4, w4, t4 := [Lit(' '), Plus(NonSpace)] + q3, [" ", bytes] + w3, " " + bytes + t3;
    var q5, w5, t5 := [Lit(' '), Plus(Digit)] + q4, [" ", status] + w4, " " + status + t4;
    assert q5 == TailAtoms;
    assert w5 == TailPieces(status, bytes, referrer, agent, rt);
    assert t5 == TailText(status, bytes, referrer, agent, rt) + tail;
    SpacedToken(q0, rt, t0, w0);
    SpacedQuoted(q1, agent, t1, w1);
    SpacedQuoted(q2, referrer, t2, w2);
    SpacedToken(q3, bytes, t3, w3);
    SpacedDigits(q4, status, t4, w4);
  }

  /** `s + "\""` against `(\S+)"` followed by ` ...`: the run of `\S` first
      takes the quote too, and has to give it back. */
  lemma {:induction false} TokenQuote(q: seq<Atom>, s: string, t: string, w: seq<string>)
    requires IsToken(s) && |t| > 0 && t[0] == ' '
    requires MatchFrom(q, t) == Some(w)
    ensures MatchFrom([Plus(NonSpace), Lit('"')] + q, s + "\"" + t) == Some([s, "\""] + w)
  {
    var q1, w1, t1 := [Lit('"')] + q, ["\""] + w, "\"" + t;
    var p := [Plus(NonSpace)] + q1;
    assert p[1..] == q1;
    assert p == [Plus(NonSpace), Lit('"')] + q;
    assert [s, "\""] + w == [s] + w1;
    assert s + ['"'] + t == s + "\"" + t;
    assert Run(NonSpace, s + ['"'] + t, None) == |s| + 1 by {
      RunStopsAfter(NonSpace, s + ['"'], t, None);
    }
    assert MatchFrom(q1, t) == None by {
      assert Run(Literal('"'), t, Some(1)) == 0;
    }
    Exact(Lit('"'), q, "\"", t, w);
    TakeOneLess(p, s, '"', t, w1);
  }

  /** `" " + s + "\""` against ` (\S+)"` followed by ` ...`. */
  lemma {:induction false} SpacedTokenQuote(q: seq<Atom>, s: string, t: string, w: seq<string>)
    requires IsToken(s) && |t| > 0 && t[0] == ' '
    requires MatchFrom(q, t) == Some(w)
    ensures MatchFrom([Lit(' '), Plus(NonSpace), Lit('"')] + q, " " + s + "\"" + t) == Some([" ", s, "\""] + w)
  {
    assert [Lit(' '), Plus(NonSpace), Lit('"')] + q == [Lit(' ')] + ([Plus(NonSpace), Lit('"')] + q);
    assert [" ", s, "\""] + w == [" "] + ([s, "\""] + w);
    assert " " + s + "\"" + t == " " + (s + "\"" + t);
    TokenQuote(q, s, t, w);
    Exact(Lit(' '), [Plus(NonSpace), Lit('"')] + q, " ", s + "\"" + t, [s, "\""] + w);
  }

  /** Atoms 12 to 19: the quoted request. */
  lemma {:induction false} MatchRequest(verb: string, api: string, protocol: string, rest: string, ws: seq<string>)
    requires IsToken(verb) && IsToken(api) && IsToken(protocol)
    requires |rest| > 0 && rest[0] == ' '
    requires MatchFrom(TailAtoms, rest) == Some(ws)
    ensures MatchFrom(RequestAtoms + TailAtoms, RequestText(verb, api, protocol) + rest)
         == Some(RequestPieces(verb, api, protocol) + ws)
  {
    var q0, w0, t0 := TailAtoms, ws, rest;
    var q1, w1, t1 := [Lit(' '), Plus(NonSpace), Lit('"')] + q0, [" ", protocol, "\""] + w0, " " + protocol + "\"" + t0;
    var q2, w2, t2 := [Lit(' '), Plus(NonSpace)] + q1, [" ", api] + w1, " " + api + t1;
    var q3, w3, t3 := [Plus(NonSpace)] + q2, [verb] + w2, verb + t2;
    var q4, w4, t4 := [Lit('"')] + q3, ["\""] + w3, "\"" + t3;
    var q5, w5, t5 := [Lit(' ')] + q4, [" "] + w4, " " + t4;
    assert q5 == RequestAtoms + TailAtoms;
    assert w5 == RequestPieces(verb, api, protocol) + ws;
    assert t5 == RequestText(verb, api, protocol) + rest;
    SpacedTokenQuote(q0, protocol, t0, w0);
    SpacedToken(q1, api, t1, w1);
    Greedy(Plus(NonSpace), q2, verb, t2, w2);
    Exact(Lit('"'), q3, "\"", t3, w3);
    Exact(Lit(' '), q4, " ", t4, w4);
  }

  /** `ts` against `[\w:/]+\s[+\-]\d{4}` followed by the pattern `q`. */
  lemma {:induction false} TimestampPieces(q: seq<Atom>, ts: string, t: string, w: seq<string>)
    requires IsTimestamp(ts)
    requires MatchFrom(q, t) == Some(w)
    ensures var n := |ts|;
      MatchFrom([Plus(WordColonSlash), Atom(Space, 1, Some(1)), Atom(PlusMinus, 1, Some(1)),
                 Atom(Digit, 4, Some(4))] + q, ts + t)
      == Some([ts[..n - 6], ts[n - 6..n - 5], ts[n - 5..n - 4], ts[n - 4..]] + w)
  {
    var n := |ts|;
    var when, gap, sign, zone := ts[..n - 6], ts[n - 6..n - 5], ts[n - 5..n - 4], ts[n - 4..];
    var q2, w2, t2 := [Atom(Digit, 4, Some(4))] + q, [zone] + w, zone + t;
    var q3, w3, t3 := [Atom(PlusMinus, 1, Some(1))] + q2, [sign] + w2, sign + t2;
    var q4, w4, t4 := [Atom(Space, 1, Some(1))] + q3, [gap] + w3, gap + t3;
    var q5, w5, t5 := [Plus(WordColonSlash)] + q4, [when] + w4, when + t4;
    assert ts == when + gap + sign + zone;
    assert q5 == [Plus(WordColonSlash), Atom(Space, 1, Some(1)), Atom(PlusMinus, 1, Some(1)),
                  Atom(Digit, 4, Some(4))] + q;
    assert w5 == [when, gap, sign, zone] + w;
    assert t5 == ts + t;
    Exact(Atom(Digit, 4, Some(4)), q, zone, t, w);
    Exact(Atom(PlusMinus, 1, Some(1)), q2, sign, t2, w2);
    Exact(Atom(Space, 1, Some(1)), q3, gap, t3, w3);
    Greedy(Plus(WordColonSlash), q4, when, t4, w4);
  }

  /** `" [" + ts + "]"` against ` \[([\w:/]+\s[+\-]\d{4})\]` followed by the pattern `q`. */
  lemma {:induction false} BracketedTimestamp(q: seq<Atom>, ts: string, t: string, w: seq<string>)
    requires IsTimestamp(ts)
    requires MatchFrom(q, t) == Some(w)
    ensures var n := |ts|;
      MatchFrom(HeadAtoms[5..] + q, " [" + ts + "]" + t)
      == Some([" ", "[", ts[..n - 6], ts[n - 6..n - 5], ts[n - 5..n - 4], ts[n - 4..], "]"] + w)
  {
    var n := |ts|;
    var q1, w1, t1 := [Lit(']')] + q, ["]"] + w, "]" + t;
    var q2 := [Plus(WordColonSlash), Atom(Space, 1, Some(1)), Atom(PlusMinus, 1, Some(1)),
               Atom(Digit, 4, Some(4))] + q1;
    var w2 := [ts[..n - 6], ts[n - 6..n - 5], ts[n - 5..n - 4], ts[n - 4..]] + w1;
    var t2 := ts + t1;
    var q3, w3, t3 := [Lit('[')] + q2, ["["] + w2, "[" + t2;
    var q4, w4, t4 := [Lit(' ')] + q3, [" "] + w3, " " + t3;
    assert q4 == HeadAtoms[5..] + q;
    assert w4 == [" ", "[", ts[..n - 6], ts[n - 6..n - 5], ts[n - 5..n - 4], ts[n - 4..], "]"] + w;
    assert t4 == " [" + ts + "]" + t;
    Exact(Lit(']'), q, "]", t, w);
    TimestampPieces(q1, ts, t1, w1);
    Exact(Lit('['), q2, "[", t2, w2);
    Exact(Lit(' '), q3, " ", t3, w3);
  }

  /** Atoms 0 to 11: the three leading tokens and the bracketed timestamp. */
  lemma {:induction false} MatchHead(ip: string, logName: string, user: string, ts: string, rest: string, ws: seq<string>)
    requires IsToken(ip) && IsToken(logName) && IsToken(user) && IsTimestamp(ts)
    requires |rest| > 0 && rest[0] == ' '
    requires MatchFrom(RequestAtoms + TailAtoms, rest) == Some(ws)
    ensures MatchFrom(ApachePattern, HeadText(ip, logName, user, ts) + rest) == Some(HeadPieces(ip, logName, user, ts) + ws)
  {
    var n := |ts|;
    var q0, w0, t0 := RequestAtoms + TailAtoms, ws, rest;
    var q1 := HeadAtoms[5..] + q0;
    var w1 := [" ", "[", ts[..n - 6], ts[n - 6..n - 5], ts[n - 5..n - 4], ts[n - 4..], "]"] + w0;
    var t1 := " [" + ts + "]" + t0;
    var q2, w2, t2 := [Lit(' '), Plus(NonSpace)] + q1, [" ", user] + w1, " " + user + t1;
    var q3, w3, t3 := [Lit(' '), Plus(NonSpace)] + q2, [" ", logName] + w2, " " + logName + t2;
    var q4, w4, t4 := [Plus(NonSpace)] + q3, [ip] + w3, ip + t3;
    assert q4 == HeadAtoms + q0 by {
      assert q2 == HeadAtoms[3..] + q0;
      assert q3 == HeadAtoms[1..] + q0;
    }
    assert ApachePattern == HeadAtoms + q0;
    assert w4 == HeadPieces(ip, logName, user, ts) + ws;
    assert t4 == HeadText(ip, logName, user, ts) + rest;
    BracketedTimestamp(q0, ts, t0, w0);
    SpacedToken(q1, user, t1, w1);
    SpacedToken(q2, logName, t2, w2);
    Greedy(Plus(NonSpace), q3, ip, t3, w3);
  }

  /** A well-formed record written as a log line parses back to the same
      record, whatever follows the last token after a space: the match is
      anchored at the start only. The parse raises instead when the status
      code has more digits than `int()` converts, or when `float()` rejects
      the response time. */
  lemma {:induction false} ParseFormatted(r: LogRecord, tail: string)
    requires WellFormed(r)
    requires tail == [] || IsSpace(tail[0])
    ensures ParseApacheLog(FormatLine(r) + tail) ==
      if |DecimalString(r.statusCode)| > MaxStrDigits then Failure(IntLimitError(|DecimalString(r.statusCode)|))
      else if IsFloatLiteral(r.responseTime) then Success(Some(r)) else Failure(FloatError(r.responseTime))
  {
    var status := DecimalString(r.statusCode);
    var ts := r.timestamp;
    var head := HeadText(r.ip, r.remoteLogName, r.userId, ts);
    var request := RequestText(r.requestType, r.api, r.protocol);
    var rest20 := TailText(status, r.bytes, r.referrer, r.userAgent, r.responseTime) + tail;
    var rest12 := request + rest20;
    var ws20 := TailPieces(status, r.bytes, r.referrer, r.userAgent, r.responseTime);
    var ws12 := RequestPieces(r.requestType, r.api, r.protocol) + ws20;
    assert head + rest12 == FormatLine(r) + tail;
    assert rest20[0] == ' ' && rest12[0] == ' ';
    RecordOfPieces(r);
    MatchTail(status, r.bytes, r.referrer, r.userAgent, r.responseTime, tail);
    MatchRequest(r.requestType, r.api, r.protocol, rest20, ws20);
    MatchHead(r.ip, r.remoteLogName, r.userId, ts, rest12, ws12);
    assert ParseApacheLog(head + rest12) == FromPieces(Pieces(r));
    assert FromPieces(Pieces(r)) ==
      if |status| > MaxStrDigits then Failure(IntLimitError(|status|))
      else if IsFloatLiteral(r.responseTime) then Success(Some(r)) else Failure(FloatError(r.responseTime));
  }
}
