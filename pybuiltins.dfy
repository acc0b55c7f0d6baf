/** The Python built-ins the log analyser leans on, stated over `string`:
    character classes, `str.strip`, `str.isdigit`, `int()` and `float()` on a
    string, `os.path.splitext`, `str.replace`, and the exceptions the analyser
    can raise together with their `str(e)`. */
module PyBuiltins {
  import opened Wrappers

  // ---------------------------------------------------------------------------
  // Character classes
  // ---------------------------------------------------------------------------

  /** The characters Python treats as whitespace (`str.isspace`): they are what
      `\s` matches and what `str.strip()` removes. */
  predicate IsSpace(c: char) {
    var n := c as int;
    (9 <= n <= 13) || (28 <= n <= 32) || n == 0x85 || n == 0xA0 || n == 0x1680
    || (0x2000 <= n <= 0x200A) || n == 0x2028 || n == 0x2029 || n == 0x202F
    || n == 0x205F || n == 0x3000
  }

  /** The whitespace `int()` and `float()` skip around a literal. Below 128
      only `\t\n\v\f\r` and the space count (C's `isspace`); above, every
      `str.isspace` character is first turned into a space. The separators
      U+001C..U+001F are thus whitespace to `str.strip()` but not to `int()`. */
  predicate IsNumericSpace(c: char) {
    var n := c as int;
    (9 <= n <= 13) || n == 32 || (n >= 128 && IsSpace(c))
  }

  /** A decimal digit (`\d`), ASCII only. */
  predicate IsDigit(c: char) {
    '0' <= c <= '9'
  }

  /** A word character (`\w`), ASCII only. */
  predicate IsWordChar(c: char) {
    ('a' <= c <= 'z') || ('A' <= c <= 'Z') || IsDigit(c) || c == '_'
  }

  predicate AllDigits(s: string) {
    forall k :: 0 <= k < |s| ==> IsDigit(s[k])
  }

  /** `s.isdigit()`: non-empty and made of digits only. */
  predicate IsDigitString(s: string) {
    |s| > 0 && AllDigits(s)
  }

  // ---------------------------------------------------------------------------
  // str.strip()
  // ---------------------------------------------------------------------------

  /** Number of leading characters of `s` in the class `sp`. */
  function LeadingIn(s: string, sp: char -> bool): (n: nat)
    ensures n <= |s|
    ensures forall k :: 0 <= k < n ==> sp(s[k])
    ensures n < |s| ==> !sp(s[n])
    decreases |s|
  {
    if s == [] || !sp(s[0]) then 0 else 1 + LeadingIn(s[1..], sp)
  }

  /** Length of `s` once its trailing characters in the class `sp` are removed. */
  function TrimmedIn(s: string, sp: char -> bool): (n: nat)
    ensures n <= |s|
    ensures forall k :: n <= k < |s| ==> sp(s[k])
    ensures n > 0 ==> !sp(s[n - 1])
    decreases |s|
  {
    if s == [] || !sp(s[|s| - 1]) then |s| else TrimmedIn(s[..|s| - 1], sp)
  }

  /** The slice `s[i..j]` that remains when the leading and the trailing
      characters in the class `sp` are removed. */
  function Trim(s: string, sp: char -> bool): (r: string)
    ensures |r| <= |s|
    ensures r == [] || (!sp(r[0]) && !sp(r[|r| - 1]))
    ensures exists i, j :: 0 <= i <= j <= |s| && r == s[i..j]
              && (forall k :: 0 <= k < i ==> sp(s[k]))
              && (forall k :: j <= k < |s| ==> sp(s[k]))
  {
    var i := LeadingIn(s, sp);
    var t := s[i..];
    var n := TrimmedIn(t, sp);
    assert t[..n] == s[i..i + n];
    t[..n]
  }

  /** `s.strip()`: the slice that remains when the leading and the trailing
      whitespace are removed. */
  function Strip(s: string): (r: string)
    ensures |r| <= |s|
    ensures r == [] || (!IsSpace(r[0]) && !IsSpace(r[|r| - 1]))
    ensures exists i, j :: 0 <= i <= j <= |s| && r == s[i..j]
              && (forall k :: 0 <= k < i ==> IsSpace(s[k]))
              && (forall k :: j <= k < |s| ==> IsSpace(s[k]))
  {
    Trim(s, IsSpace)
  }

  lemma StripIdempotent(s: string)
    ensures Strip(Strip(s)) == Strip(s)
  {
    var r := Strip(s);
    if r != [] {
      assert LeadingIn(r, IsSpace) == 0;
      assert TrimmedIn(r, IsSpace) == |r|;
      assert r[0..][..|r|] == r;
    }
  }

  // ---------------------------------------------------------------------------
  // Decimal digits and int()
  // ---------------------------------------------------------------------------

  function DigitValue(c: char): nat
    requires IsDigit(c)
  {
    (c as int) - ('0' as int)
  }

  /** The value of a string of decimal digits, most significant first. */
  function DecimalValue(s: string): nat
    requires AllDigits(s)
    decreases |s|
  {
    if s == [] then 0 else 10 * DecimalValue(s[..|s| - 1]) + DigitValue(s[|s| - 1])
  }

  function DigitChar(d: nat): (c: char)
    requires d < 10
    ensures IsDigit(c) && DigitValue(c) == d
  {
    ('0' as int + d) as char
  }

  /** `str(n)` for a non-negative integer: its shortest decimal numeral. */
  function DecimalString(n: nat): (s: string)
    ensures IsDigitString(s)
    ensures DecimalValue(s) == n
    decreases n
  {
    if n < 10 then [DigitChar(n)]
    else
      var prefix := DecimalString(n / 10);
      var s := prefix + [DigitChar(n % 10)];
      assert s[..|s| - 1] == prefix;
      s
  }

  /** Python's `digitpart` production: digits, where single underscores may
      separate two digits. */
  predicate IsDigitPart(s: string) {
    |s| > 0 && forall k :: 0 <= k < |s| ==> DigitPartAt(s, k)
  }

  predicate DigitPartAt(s: string, k: nat)
    requires k < |s|
  {
    IsDigit(s[k]) || (s[k] == '_' && 0 < k < |s| - 1 && IsDigit(s[k - 1]) && IsDigit(s[k + 1]))
  }

  function RemoveUnderscores(s: string): (r: string)
    ensures |r| <= |s|
    ensures (forall k :: 0 <= k < |s| ==> IsDigit(s[k]) || s[k] == '_') ==> AllDigits(r)
    ensures AllDigits(s) ==> r == s
    decreases |s|
  {
    if s == [] then []
    else (if s[0] == '_' then [] else [s[0]]) + RemoveUnderscores(s[1..])
  }

  /** Python's default limit on the digits of a string `int()` converts
      (`sys.get_int_max_str_digits()`). */
  const MaxStrDigits := 4300

  /** `int(s)` with base 10: surrounding `IsNumericSpace` whitespace, an optional sign, then a
      digitpart of at most `MaxStrDigits` digits (underscores do not count). */
  function ParseInt(s: string): (r: Result<int, Exception>)
    ensures r.Failure? ==> r.error.ValueError?
  {
    var t := Trim(s, IsNumericSpace);
    var signed := |t| > 0 && (t[0] == '+' || t[0] == '-');
    var body := if signed then t[1..] else t;
    if !IsDigitPart(body) then Failure(IntError(s))
    else
      assert forall k :: 0 <= k < |body| ==> IsDigit(body[k]) || body[k] == '_' by {
        forall k | 0 <= k < |body| ensures IsDigit(body[k]) || body[k] == '_' {
          assert DigitPartAt(body, k);
        }
      }
      var digits := RemoveUnderscores(body);
      if |digits| > MaxStrDigits then Failure(IntLimitError(|digits|))
      else
        var v: int := DecimalValue(digits);
        Success(if signed && t[0] == '-' then -v else v)
  }

  /** On a string that `isdigit()` accepts, `int()` returns its decimal value,
      unless the string is longer than the digit limit. */
  lemma {:induction false} ParseIntOfDigits(s: string)
    requires IsDigitString(s)
    ensures ParseInt(s) == if |s| > MaxStrDigits then Failure(IntLimitError(|s|)) else Success(DecimalValue(s))
  {
    assert !IsNumericSpace(s[0]) && !IsNumericSpace(s[|s| - 1]);
    assert LeadingIn(s, IsNumericSpace) == 0;
    assert s[0..] == s;
    assert TrimmedIn(s, IsNumericSpace) == |s|;
    assert s[..|s|] == s;
    var t := Trim(s, IsNumericSpace);
    assert t == s;
    assert !(|t| > 0 && (t[0] == '+' || t[0] == '-'));
    assert IsDigitPart(s) by {
      forall k | 0 <= k < |s| ensures DigitPartAt(s, k) {
        assert IsDigit(s[k]);
      }
    }
    assert RemoveUnderscores(s) == s;
  }

  // ---------------------------------------------------------------------------
  // float()
  // ---------------------------------------------------------------------------

  function AsciiLower(c: char): char {
    if 'A' <= c <= 'Z' then (c as int + 32) as char else c
  }

  /** `s.lower() == w`, for a lower-case ASCII word `w`. */
  predicate LowerIs(s: string, w: string)
    decreases |s|
  {
    if s == [] || w == [] then s == w
    else AsciiLower(s[0]) == w[0] && LowerIs(s[1..], w[1..])
  }

  /** How far a left-to-right scan of Python's `floatnumber` production has
      got: `[digitpart] "." digitpart | digitpart ["."]`, then optionally
      `e`/`E`, a sign and a `digitpart`; single underscores may only stand
      between two digits. */
  datatype FloatState =
    | Start | Whole | WholeUnderscore | BareDot | WholeDot | Fraction | FractionUnderscore
    | Exponent | ExponentSign | ExponentDigits | ExponentUnderscore | Rejected

  function FloatStep(st: FloatState, c: char): FloatState {
    var e := c == 'e' || c == 'E';
    match st
    case Start => if IsDigit(c) then Whole else if c == '.' then BareDot else Rejected
    case Whole =>
      if IsDigit(c) then Whole else if c == '_' then WholeUnderscore
      else if c == '.' then WholeDot else if e then Exponent else Rejected
    case WholeUnderscore => if IsDigit(c) then Whole else Rejected
    case BareDot => if IsDigit(c) then Fraction else Rejected
    case WholeDot => if IsDigit(c) then Fraction else if e then Exponent else Rejected
    case Fraction => if IsDigit(c) then Fraction else if c == '_' then FractionUnderscore else if e then Exponent else Rejected
    case FractionUnderscore => if IsDigit(c) then Fraction else Rejected
    case Exponent => if IsDigit(c) then ExponentDigits else if c == '+' || c == '-' then ExponentSign else Rejected
    case ExponentSign => if IsDigit(c) then ExponentDigits else Rejected
    case ExponentDigits => if IsDigit(c) then ExponentDigits else if c == '_' then ExponentUnderscore else Rejected
    case ExponentUnderscore => if IsDigit(c) then ExponentDigits else Rejected
    case Rejected => Rejected
  }

  /** The states in which the text scanned so far is a complete literal. */
  predicate Accepting(st: FloatState) {
    st == Whole || st == WholeDot || st == Fraction || st == ExponentDigits
  }

  function FloatScan(st: FloatState, s: string): FloatState
    decreases |s|
  {
    if s == [] then st else FloatScan(FloatStep(st, s[0]), s[1..])
  }

  /** What `float()` accepts after the sign: `inf`, `infinity` and `nan` in
      any case, or a decimal literal. */
  predicate IsUnsignedFloat(u: string) {
    LowerIs(u, "inf") || LowerIs(u, "infinity") || LowerIs(u, "nan") || Accepting(FloatScan(Start, u))
  }

  /** Whether `float(s)` returns rather than raising `ValueError`. */
  predicate IsFloatLiteral(s: string) {
    var t := Trim(s, IsNumericSpace);
    var u := if |t| > 0 && (t[0] == '+' || t[0] == '-') then t[1..] else t;
    IsUnsignedFloat(u)
  }

  /** Once the scan has rejected, it stays rejected. */
  lemma {:induction false} RejectedStays(s: string)
    ensures FloatScan(Rejected, s) == Rejected
    decreases |s|
  {
    if s != [] {
      RejectedStays(s[1..]);
    }
  }

  /** `int()` and `float()` keep a leading separator U+001C..U+001F, which
      `str.strip()` would remove. */
  lemma {:induction false} SeparatorKept(c: char, s: string)
    requires 0x1C <= c as int <= 0x1F
    ensures IsSpace(c) && !IsNumericSpace(c)
    ensures var t := Trim([c] + s, IsNumericSpace); |t| > 0 && t[0] == c
  {
    var w := [c] + s;
    assert LeadingIn(w, IsNumericSpace) == 0;
    assert w[0..] == w;
    assert TrimmedIn(w, IsNumericSpace) > 0;
  }

  /** So `int()` rejects a literal that starts with such a separator... */
  lemma SeparatorRejectedByInt(c: char, s: string)
    requires 0x1C <= c as int <= 0x1F
    ensures ParseInt([c] + s) == Failure(IntError([c] + s))
  {
    SeparatorKept(c, s);
    var t := Trim([c] + s, IsNumericSpace);
    assert !(t[0] == '+' || t[0] == '-');
    assert !DigitPartAt(t, 0);
    assert !IsDigitPart(t);
  }

  /** ... and so does `float()`. */
  lemma SeparatorRejectedByFloat(c: char, s: string)
    requires 0x1C <= c as int <= 0x1F
    ensures !IsFloatLiteral([c] + s)
  {
    SeparatorKept(c, s);
    var t := Trim([c] + s, IsNumericSpace);
    assert AsciiLower(c) == c;
    assert !LowerIs(t, "inf") && !LowerIs(t, "infinity") && !LowerIs(t, "nan");
    assert FloatScan(Start, t) == FloatScan(Rejected, t[1..]);
    RejectedStays(t[1..]);
  }

  // ---------------------------------------------------------------------------
  // os.path.splitext
  // ---------------------------------------------------------------------------

  /** Index of the last occurrence of `c` in `s`, or -1. */
  function LastIndex(s: string, c: char): (k: int)
    ensures -1 <= k < |s|
    ensures k >= 0 ==> s[k] == c
    ensures forall j :: k < j < |s| ==> s[j] != c
    decreases |s|
  {
    if s == [] then -1
    else if s[|s| - 1] == c then |s| - 1
    else LastIndex(s[..|s| - 1], c)
  }

  /** `LastIndex` is the only index with its two defining properties. */
  lemma LastIndexUnique(s: string, c: char, m: int)
    requires -1 <= m < |s|
    requires m >= 0 ==> s[m] == c
    requires forall j :: m < j < |s| ==> s[j] != c
    ensures LastIndex(s, c) == m
  {
  }

  /** `os.path.splitext(p)` on POSIX: the extension starts at the last dot of the
      last path component, unless every character before that dot in the
      component is itself a dot (`.bashrc` has no extension). */
  function SplitExt(p: string): (r: (string, string))
    ensures r.0 + r.1 == p
    ensures r.1 == [] || r.1[0] == '.'
    ensures forall k :: 0 < k < |r.1| ==> r.1[k] != '.' && r.1[k] != '/'
    ensures r.1 != [] ==> exists k :: 0 <= k < |r.0| && r.0[k] != '.' && r.0[k] != '/'
  {
    var sep := LastIndex(p, '/');
    var dot := LastIndex(p, '.');
    if dot > sep && exists k :: sep + 1 <= k < dot && p[k] != '.' then
      assert p[..dot] + p[dot..] == p;
      (p[..dot], p[dot..])
    else
      (p, [])
  }

  // ---------------------------------------------------------------------------
  // str.replace and counting
  // ---------------------------------------------------------------------------

  /** `s.replace(pat, rep)`: every non-overlapping occurrence of `pat`, scanning
      left to right, is replaced by `rep`. */
  function ReplaceAll(s: string, pat: string, rep: string): string
    requires |pat| > 0
    decreases |s|
  {
    if |s| < |pat| then s
    else if s[..|pat|] == pat then rep + ReplaceAll(s[|pat|..], pat, rep)
    else [s[0]] + ReplaceAll(s[1..], pat, rep)
  }

  /** A string without the first character of `pat` is left unchanged. */
  lemma {:induction false} ReplaceAllAbsent(s: string, pat: string, rep: string)
    requires |pat| > 0 && pat[0] !in s
    ensures ReplaceAll(s, pat, rep) == s
    decreases |s|
  {
    if |s| >= |pat| {
      assert s[..|pat|][0] == s[0] != pat[0];
      ReplaceAllAbsent(s[1..], pat, rep);
      assert [s[0]] + s[1..] == s;
    }
  }

  /** An occurrence at the start followed by a string without `pat[0]`: only
      that occurrence is replaced. */
  lemma ReplaceAllLeading(pat: string, t: string, rep: string)
    requires |pat| > 0 && pat[0] !in t
    ensures ReplaceAll(pat + t, pat, rep) == rep + t
  {
    var s := pat + t;
    assert s[..|pat|] == pat;
    assert s[|pat|..] == t;
    ReplaceAllAbsent(t, pat, rep);
  }

  /** Number of occurrences of `c` in `s`. */
  function Count(s: string, c: char): nat
    decreases |s|
  {
    if s == [] then 0 else (if s[0] == c then 1 else 0) + Count(s[1..], c)
  }

  lemma {:induction false} CountConcat(a: string, b: string, c: char)
    ensures Count(a + b, c) == Count(a, c) + Count(b, c)
    decreases |a|
  {
    if a != [] {
      assert (a + b)[1..] == a[1..] + b;
      CountConcat(a[1..], b, c);
    } else {
      assert a + b == b;
    }
  }

  // ---------------------------------------------------------------------------
  // Exceptions
  // ---------------------------------------------------------------------------

  /** The exceptions the analyser can raise: `ValueError` from `int()`/`float()`,
      `KeyError` from a missing dictionary key, `sqlite3.Error` from the store. */
  datatype Exception =
    | ValueError(message: string)
    | KeyError(key: string)
    | DatabaseError(message: string)

  /** `str(e)`. A `KeyError` shows the `repr` of its key. */
  function Str(e: Exception): string {
    match e
    case ValueError(m) => m
    case KeyError(k) => Repr(k)
    case DatabaseError(m) => m
  }

  /** The `ValueError` that `float(token)` raises. */
  function FloatError(token: string): Exception {
    ValueError("could not convert string to float: " + Repr(token))
  }

  /** The `ValueError` that `int(token)` raises on a malformed literal: the
      `repr` of the token, cut at 200 characters. */
  function IntError(token: string): Exception {
    var r := Repr(token);
    ValueError("invalid literal for int() with base 10: " + (if |r| <= 200 then r else r[..200]))
  }

  /** The `ValueError` that `int()` raises on a literal of more than
      `MaxStrDigits` digits. */
  function IntLimitError(digits: nat): Exception {
    ValueError("Exceeds the limit (4300 digits) for integer string conversion: "
               + "value has " + DecimalString(digits) + " digits; "
               + "use sys.set_int_max_str_digits() to increase the limit")
  }

  // ---------------------------------------------------------------------------
  // repr() of a string
  // ---------------------------------------------------------------------------

  /** Whether `repr` keeps a character as it is. Every printable ASCII
      character is kept; beyond ASCII, the C1 controls, the no-break and other
      separators, and the best-known format, private-use and non-character
      code points are escaped. */
  predicate IsPrintable(c: char) {
    var n := c as int;
    if n < 0x7F then n >= 0x20
    else !(n <= 0xA0 || n == 0xAD || n == 0x1680 || (0x2000 <= n <= 0x200F) || (0x2028 <= n <= 0x202F)
           || (0x205F <= n <= 0x206F) || n == 0x3000 || (0xE000 <= n <= 0xF8FF) || n == 0xFEFF
           || (0xFFF9 <= n <= 0xFFFB) || n == 0xFFFE || n == 0xFFFF || n >= 0xF0000)
  }

  function HexDigit(d: nat): (c: char)
    requires d < 16
    ensures ('0' <= c <= '9') || ('a' <= c <= 'f')
  {
    if d < 10 then ('0' as int + d) as char else ('a' as int + d - 10) as char
  }

  /** The last `width` hexadecimal digits of `n`, lower case. */
  function Hex(n: nat, width: nat): (h: string)
    ensures |h| == width
    ensures forall k :: 0 <= k < |h| ==> ('0' <= h[k] <= '9') || ('a' <= h[k] <= 'f')
    decreases width
  {
    if width == 0 then [] else Hex(n / 16, width - 1) + [HexDigit(n % 16)]
  }

  /** How `repr` writes one character inside the quote `q`. */
  function ReprChar(c: char, q: char): string {
    var n := c as int;
    if c == q || c == '\\' then ['\\', c]
    else if c == '\t' then "\\t"
    else if c == '\n' then "\\n"
    else if c == '\r' then "\\r"
    else if IsPrintable(c) then [c]
    else if n <= 0xFF then "\\x" + Hex(n, 2)
    else if n <= 0xFFFF then "\\u" + Hex(n, 4)
    else "\\U" + Hex(n, 8)
  }

  function ReprBody(s: string, q: char): string
    decreases |s|
  {
    if s == [] then [] else ReprChar(s[0], q) + ReprBody(s[1..], q)
  }

  /** The quote `repr` puts around `s`: `"` when `s` holds a `'` and no `"`. */
  function ReprQuote(s: string): (q: char)
    ensures q == '\'' || q == '"'
  {
    if '\'' in s && '"' !in s then '"' else '\''
  }

  /** `repr(s)`. */
  function Repr(s: string): string {
    var q := ReprQuote(s);
    [q] + ReprBody(s, q) + [q]
  }

  /** Printable text holding neither a backslash nor the quote is written as it is. */
  lemma {:induction false} ReprBodyPlain(s: string, q: char)
    requires forall k :: 0 <= k < |s| ==> IsPrintable(s[k]) && s[k] != '\\' && s[k] != q
    ensures ReprBody(s, q) == s
    decreases |s|
  {
    if s != [] {
      ReprBodyPlain(s[1..], q);
      assert s == [s[0]] + s[1..];
    }
  }

  /** An escape never holds a quote character except right after its backslash. */
  lemma ReprCharQuote(c: char, q: char)
    requires q == '\'' || q == '"'
    ensures forall k :: 0 <= k < |ReprChar(c, q)| && ReprChar(c, q)[k] == q ==> k == 1 && ReprChar(c, q)[0] == '\\'
  {
  }

  /** Inside the quotes, every quote character is escaped by a backslash, so
      the written string ends at its closing quote. */
  lemma {:induction false} ReprBodyEscapesQuote(s: string, q: char)
    requires q == '\'' || q == '"'
    ensures forall k :: 0 <= k < |ReprBody(s, q)| && ReprBody(s, q)[k] == q ==> k > 0 && ReprBody(s, q)[k - 1] == '\\'
    decreases |s|
  {
    if s != [] {
      var head, rest := ReprChar(s[0], q), ReprBody(s[1..], q);
      ReprBodyEscapesQuote(s[1..], q);
      ReprCharQuote(s[0], q);
      assert ReprBody(s, q) == head + rest;
      forall k | 0 <= k < |head + rest| && (head + rest)[k] == q ensures k > 0 && (head + rest)[k - 1] == '\\' {
        if k >= |head| {
          assert rest[k - |head|] == q;
        }
      }
    }
  }

  /** A string of printable characters without a backslash is written
      between quotes as it is: in `'…'` when it holds no `'`, and in `"…"`
      when it holds a `'` but no `"`. */
  lemma ReprPlain(s: string)
    requires forall k :: 0 <= k < |s| ==> IsPrintable(s[k]) && s[k] != '\\'
    requires '\'' !in s || '"' !in s
    ensures Repr(s) == if '\'' in s then "\"" + s + "\"" else "'" + s + "'"
  {
    ReprBodyPlain(s, ReprQuote(s));
  }
}
