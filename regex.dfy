/** Matching of regular expressions that are a concatenation of greedily
    repeated single-character items, the shape of the Apache log pattern, with
    the semantics of Python's `re.match`: the match is anchored at the start of
    the text but not at its end, every repetition first takes as many
    characters as it can, and on a later failure gives them back one at a time.

    A match is described by its pieces: the text each item consumed. `Fits`
    says which piece lists are matches at all; `MatchFrom` is the backtracking
    search; `MatchFromIsGreedy` proves that the search finds a match exactly
    when one exists, and then the one whose piece lengths are lexicographically
    greatest -- the match a backtracking engine that tries longer repetitions
    first reports. */
module Regex {
  import opened Wrappers
  import opened PyBuiltins

  datatype CharClass =
    | NonSpace          // \S
    | Space             // \s
    | Digit             // \d
    | WordColonSlash    // [\w:/]
    | PlusMinus         // [+\-]
    | NotQuote          // [^"]
    | Literal(c: char)  // the character itself

  predicate InClass(k: CharClass, c: char) {
    match k
    case NonSpace => !IsSpace(c)
    case Space => IsSpace(c)
    case Digit => IsDigit(c)
    case WordColonSlash => IsWordChar(c) || c == ':' || c == '/'
    case PlusMinus => c == '+' || c == '-'
    case NotQuote => c != '"'
    case Literal(l) => c == l
  }

  /** The item `cls{lo,hi}`, greedy; `hi == None` means no upper bound. */
  datatype Atom = Atom(cls: CharClass, lo: nat, hi: Option<nat>)

  predicate WithinMax(a: Atom, n: nat) {
    a.hi.None? || n <= a.hi.value
  }

  /** `w` is a text the atom matches on its own. */
  predicate AtomFits(a: Atom, w: string) {
    a.lo <= |w| && WithinMax(a, |w|) && forall m :: 0 <= m < |w| ==> InClass(a.cls, w[m])
  }

  /** `ws` is a match of `p` against a prefix of `t`: `ws[k]` is the text that
      atom `k` consumed, and the pieces follow each other from the start of `t`. */
  predicate Fits(p: seq<Atom>, t: string, ws: seq<string>)
    decreases |p|
  {
    |ws| == |p| &&
    (p == [] ||
     (|ws[0]| <= |t| && t[..|ws[0]|] == ws[0] && AtomFits(p[0], ws[0])
      && Fits(p[1..], t[|ws[0]|..], ws[1..])))
  }

  /** Lexicographic order on the piece lengths: the order in which a
      backtracking engine that tries longer repetitions first reaches them. */
  predicate LexGe(a: seq<string>, b: seq<string>)
    requires |a| == |b|
    decreases |a|
  {
    a == [] || |a[0]| > |b[0]| || (|a[0]| == |b[0]| && LexGe(a[1..], b[1..]))
  }

  /** The match a backtracking search reports: a match that is greater, in
      `LexGe`, than every other match. */
  ghost predicate IsGreedyMatch(p: seq<Atom>, t: string, ws: seq<string>) {
    Fits(p, t, ws) && forall ws' :: Fits(p, t, ws') ==> LexGe(ws, ws')
  }

  ghost predicate Matches(p: seq<Atom>, t: string) {
    exists ws :: Fits(p, t, ws)
  }

  /** How many characters at the start of `t` the class accepts, at most `cap`. */
  function Run(k: CharClass, t: string, cap: Option<nat>): (n: nat)
    ensures n <= |t|
    decreases |t|
  {
    if t == [] || (cap.Some? && cap.value == 0) || !InClass(k, t[0]) then 0
    else 1 + Run(k, t[1..], if cap.Some? then Some(cap.value - 1) else None)
  }

  /** The run is the longest prefix of class characters within the cap. */
  lemma {:induction false} RunMaximal(k: CharClass, t: string, cap: Option<nat>)
    ensures forall m :: 0 <= m < Run(k, t, cap) ==> InClass(k, t[m])
    ensures cap.Some? ==> Run(k, t, cap) <= cap.value
    ensures Run(k, t, cap) == |t| || (cap.Some? && Run(k, t, cap) == cap.value) || !InClass(k, t[Run(k, t, cap)])
    decreases |t|
  {
    if !(t == [] || (cap.Some? && cap.value == 0) || !InClass(k, t[0])) {
      RunMaximal(k, t[1..], if cap.Some? then Some(cap.value - 1) else None);
    }
  }

  /** `re.match` of `p` against `t`: the backtracking search. */
  function MatchFrom(p: seq<Atom>, t: string): (r: Option<seq<string>>)
    ensures r.Some? ==> |r.value| == |p|
    decreases |p|, 1, 0
  {
    if p == [] then Some([])
    else
      var n := Run(p[0].cls, t, p[0].hi);
      RunMaximal(p[0].cls, t, p[0].hi);
      if n < p[0].lo then None else TryLengths(p, t, n)
  }

  /** Let the first atom take `k` characters, then `k - 1`, ... down to its
      minimum, and return the first choice for which the rest matches. */
  function TryLengths(p: seq<Atom>, t: string, k: nat): (r: Option<seq<string>>)
    requires p != [] && k <= |t| && AtomFits(p[0], t[..k])
    ensures r.Some? ==> |r.value| == |p|
    decreases |p|, 0, k
  {
    match MatchFrom(p[1..], t[k..])
    case Some(rest) =>
      var ws := [t[..k]] + rest;
      assert ws[0] == t[..k] && ws[1..] == rest;
      Some(ws)
    case None =>
      if k == p[0].lo then None
      else
        assert t[..k - 1] == t[..k][..k - 1];
        TryLengths(p, t, k - 1)
  }

  // ---------------------------------------------------------------------------
  // The search finds the greatest match
  // ---------------------------------------------------------------------------

  /** What the search returns is a match. */
  lemma {:induction false} MatchFromFits(p: seq<Atom>, t: string)
    ensures MatchFrom(p, t).Some? ==> Fits(p, t, MatchFrom(p, t).value)
    decreases |p|, 1, 0
  {
    if p != [] {
      var n := Run(p[0].cls, t, p[0].hi);
      RunMaximal(p[0].cls, t, p[0].hi);
      if n >= p[0].lo {
        TryLengthsFits(p, t, n);
      }
    }
  }

  lemma {:induction false} TryLengthsFits(p: seq<Atom>, t: string, k: nat)
    requires p != [] && k <= |t| && AtomFits(p[0], t[..k])
    ensures TryLengths(p, t, k).Some? ==> Fits(p, t, TryLengths(p, t, k).value)
    decreases |p|, 0, k
  {
    var m := MatchFrom(p[1..], t[k..]);
    if m.Some? {
      MatchFromFits(p[1..], t[k..]);
      var ws := [t[..k]] + m.value;
      assert ws[0] == t[..k] && ws[1..] == m.value;
      assert TryLengths(p, t, k) == Some(ws);
    } else if k > p[0].lo {
      assert t[..k - 1] == t[..k][..k - 1];
      TryLengthsFits(p, t, k - 1);
    }
  }

  /** Whenever some match exists, the search succeeds and returns a match at
      least as great as it. */
  lemma {:induction false} MatchFromGreatest(p: seq<Atom>, t: string, ws: seq<string>)
    requires Fits(p, t, ws)
    ensures MatchFrom(p, t).Some?
    ensures LexGe(MatchFrom(p, t).value, ws)
    decreases |p|, 1, 0
  {
    if p != [] {
      var n := Run(p[0].cls, t, p[0].hi);
      RunMaximal(p[0].cls, t, p[0].hi);
      var len := |ws[0]|;
      assert len <= n;
      assert AtomFits(p[0], t[..n]);
      TryLengthsGreatest(p, t, n, ws);
    }
  }

  lemma {:induction false} TryLengthsGreatest(p: seq<Atom>, t: string, k: nat, ws: seq<string>)
    requires p != [] && k <= |t| && AtomFits(p[0], t[..k])
    requires Fits(p, t, ws) && |ws[0]| <= k
    ensures TryLengths(p, t, k).Some?
    ensures LexGe(TryLengths(p, t, k).value, ws)
    decreases |p|, 0, k
  {
    var m := MatchFrom(p[1..], t[k..]);
    if m.Some? {
      var r := [t[..k]] + m.value;
      assert TryLengths(p, t, k) == Some(r);
      assert r[1..] == m.value;
      if k == |ws[0]| {
        MatchFromGreatest(p[1..], t[k..], ws[1..]);
      }
    } else {
      if k == |ws[0]| {
        MatchFromGreatest(p[1..], t[k..], ws[1..]);
        assert false;
      }
      assert t[..k - 1] == t[..k][..k - 1];
      TryLengthsGreatest(p, t, k - 1, ws);
    }
  }

  /** Two matches of the same pattern against the same text, each at least as
      great as the other, are the same match. */
  lemma {:induction false} LexGeAntisymmetric(p: seq<Atom>, t: string, a: seq<string>, b: seq<string>)
    requires Fits(p, t, a) && Fits(p, t, b)
    requires LexGe(a, b) && LexGe(b, a)
    ensures a == b
    decreases |p|
  {
    if p != [] {
      assert a[0] == t[..|a[0]|] == b[0];
      LexGeAntisymmetric(p[1..], t[|a[0]|..], a[1..], b[1..]);
      assert a == [a[0]] + a[1..] && b == [b[0]] + b[1..];
    }
  }

  /** `re.match` returns a match exactly when the pattern matches a prefix of
      the text, and the match it returns is the greedy one. */
  lemma MatchFromIsGreedy(p: seq<Atom>, t: string)
    ensures MatchFrom(p, t).Some? <==> Matches(p, t)
    ensures MatchFrom(p, t).Some? ==> IsGreedyMatch(p, t, MatchFrom(p, t).value)
  {
    if Matches(p, t) {
      var ws :| Fits(p, t, ws);
      MatchFromGreatest(p, t, ws);
    }
    if MatchFrom(p, t).Some? {
      MatchFromFits(p, t);
      forall ws' | Fits(p, t, ws') ensures LexGe(MatchFrom(p, t).value, ws') {
        MatchFromGreatest(p, t, ws');
      }
    }
  }

  /** The greedy match is unique. */
  lemma GreedyMatchUnique(p: seq<Atom>, t: string, a: seq<string>, b: seq<string>)
    requires IsGreedyMatch(p, t, a) && IsGreedyMatch(p, t, b)
    ensures a == b
  {
    LexGeAntisymmetric(p, t, a, b);
  }

  /** The greedy match is the one the search returns. */
  lemma SearchFindsGreedyMatch(p: seq<Atom>, t: string, ws: seq<string>)
    requires IsGreedyMatch(p, t, ws)
    ensures MatchFrom(p, t) == Some(ws)
  {
    MatchFromIsGreedy(p, t);
    GreedyMatchUnique(p, t, MatchFrom(p, t).value, ws);
  }

  // ---------------------------------------------------------------------------
  // What a match says about each piece
  // ---------------------------------------------------------------------------

  function Concat(ws: seq<string>): string
    decreases |ws|
  {
    if ws == [] then [] else ws[0] + Concat(ws[1..])
  }

  /** Piece `k` of a match is matched by atom `k`. */
  lemma {:induction false} FitsPiece(p: seq<Atom>, t: string, ws: seq<string>, k: nat)
    requires Fits(p, t, ws) && k < |p|
    ensures AtomFits(p[k], ws[k])
    decreases k
  {
    if k > 0 {
      FitsPiece(p[1..], t[|ws[0]|..], ws[1..], k - 1);
    }
  }

  /** The pieces of a match, run together, are a prefix of the text. */
  lemma {:induction false} FitsPrefix(p: seq<Atom>, t: string, ws: seq<string>)
    requires Fits(p, t, ws)
    ensures |Concat(ws)| <= |t| && t[..|Concat(ws)|] == Concat(ws)
    decreases |p|
  {
    if p != [] {
      var u := t[|ws[0]|..];
      FitsPrefix(p[1..], u, ws[1..]);
      var c := Concat(ws[1..]);
      assert Concat(ws) == ws[0] + c;
      assert t[..|ws[0]| + |c|] == t[..|ws[0]|] + u[..|c|];
    }
  }

  /** A run of consecutive pieces `ws[a..b]` is the substring of the text that
      starts after the earlier pieces. */
  lemma {:induction false} PiecesAreSubstring(p: seq<Atom>, t: string, ws: seq<string>, a: nat, b: nat)
    requires Fits(p, t, ws) && a <= b <= |ws|
    ensures |Concat(ws[..a])| + |Concat(ws[a..b])| <= |t|
    ensures Concat(ws[a..b]) == t[|Concat(ws[..a])|..|Concat(ws[..a])| + |Concat(ws[a..b])|]
    decreases a
  {
    if a == 0 {
      assert ws[..0] == [];
      var c := Concat(ws[..b]);
      PrefixPieces(p, t, ws, b);
      assert ws[0..b] == ws[..b];
    } else {
      var u := t[|ws[0]|..];
      PiecesAreSubstring(p[1..], u, ws[1..], a - 1, b - 1);
      assert ws[1..][..a - 1] == ws[1..a];
      assert ws[1..][a - 1..b - 1] == ws[a..b];
      assert ws[..a] == [ws[0]] + ws[1..a];
      assert Concat(ws[..a]) == ws[0] + Concat(ws[1..a]);
    }
  }

  /** The first `b` pieces of a match run together to a prefix of the text. */
  lemma {:induction false} PrefixPieces(p: seq<Atom>, t: string, ws: seq<string>, b: nat)
    requires Fits(p, t, ws) && b <= |ws|
    ensures |Concat(ws[..b])| <= |t| && t[..|Concat(ws[..b])|] == Concat(ws[..b])
    decreases b
  {
    if b > 0 {
      var u := t[|ws[0]|..];
      PrefixPieces(p[1..], u, ws[1..], b - 1);
      assert ws[1..][..b - 1] == ws[..b][1..];
      var c := Concat(ws[..b][1..]);
      assert Concat(ws[..b]) == ws[0] + c;
      assert t[..|ws[0]| + |c|] == t[..|ws[0]|] + u[..|c|];
    }
  }

  // ---------------------------------------------------------------------------
  // Stepping the search on a known text
  // ---------------------------------------------------------------------------

  /** The class takes all of `w` and stops there: either `w` reaches the cap,
      or the next character is outside the class. */
  lemma {:induction false} RunStopsAfter(k: CharClass, w: string, rest: string, cap: Option<nat>)
    requires forall m :: 0 <= m < |w| ==> InClass(k, w[m])
    requires cap.None? || |w| <= cap.value
    requires (cap.Some? && cap.value == |w|) || rest == [] || !InClass(k, rest[0])
    ensures Run(k, w + rest, cap) == |w|
    decreases |w|
  {
    if w == [] {
      assert w + rest == rest;
    } else {
      assert (w + rest)[1..] == w[1..] + rest;
      RunStopsAfter(k, w[1..], rest, if cap.Some? then Some(cap.value - 1) else None);
    }
  }

  /** When the first atom's longest run leaves a text the rest matches, the
      search takes the longest run. */
  lemma TakeLongest(p: seq<Atom>, w: string, rest: string, ws: seq<string>)
    requires p != [] && AtomFits(p[0], w)
    requires Run(p[0].cls, w + rest, p[0].hi) == |w|
    requires MatchFrom(p[1..], rest) == Some(ws)
    ensures MatchFrom(p, w + rest) == Some([w] + ws)
  {
    var t := w + rest;
    assert t[..|w|] == w && t[|w|..] == rest;
  }

  /** When the longest run leaves a text the rest does not match but one
      character less does, the search gives that character back. */
  lemma TakeOneLess(p: seq<Atom>, w: string, c: char, rest: string, ws: seq<string>)
    requires p != [] && AtomFits(p[0], w) && p[0].lo <= |w|
    requires InClass(p[0].cls, c) && WithinMax(p[0], |w| + 1)
    requires Run(p[0].cls, w + [c] + rest, p[0].hi) == |w| + 1
    requires MatchFrom(p[1..], [c] + rest) == Some(ws)
    requires MatchFrom(p[1..], rest) == None
    ensures MatchFrom(p, w + [c] + rest) == Some([w] + ws)
  {
    var t := w + [c] + rest;
    var n := |w| + 1;
    assert t[..n] == w + [c] && t[n..] == rest;
    assert t[..|w|] == w && t[|w|..] == [c] + rest;
    assert AtomFits(p[0], t[..n]);
    assert TryLengths(p, t, n) == TryLengths(p, t, |w|);
    assert TryLengths(p, t, |w|) == Some([w] + ws);
  }

  /** A single-character item (a literal, `\s`, `[+\-]`) or an exact count
      (`\d{4}`): the search takes exactly the piece the text starts with. */
  lemma StepExact(p: seq<Atom>, w: string, rest: string, ws: seq<string>)
    requires p != [] && p[0].hi == Some(|w|) && AtomFits(p[0], w)
    requires MatchFrom(p[1..], rest) == Some(ws)
    ensures MatchFrom(p, w + rest) == Some([w] + ws)
  {
    RunStopsAfter(p[0].cls, w, rest, p[0].hi);
    TakeLongest(p, w, rest, ws);
  }

  /** An unbounded item whose piece is followed by a character outside its
      class (or by the end of the text): the search takes the piece. */
  lemma StepGreedy(p: seq<Atom>, w: string, rest: string, ws: seq<string>)
    requires p != [] && p[0].hi.None? && AtomFits(p[0], w)
    requires rest == [] || !InClass(p[0].cls, rest[0])
    requires MatchFrom(p[1..], rest) == Some(ws)
    ensures MatchFrom(p, w + rest) == Some([w] + ws)
  {
    RunStopsAfter(p[0].cls, w, rest, p[0].hi);
    TakeLongest(p, w, rest, ws);
  }
}
