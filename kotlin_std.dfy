/** The pieces of the Kotlin standard library (and of java.util.regex) that the
    segmentation engine and the command-line parser rely on, written out over
    Dafny strings. A Kotlin `String` is a sequence of characters here. */
module KotlinStd {

  /** Kotlin's nullable type `T?`. */
  datatype Option<T> = None | Some(value: T)

  /** The outcome of a call that may throw. */
  datatype Result<T, E> = Success(value: T) | Failure(error: E)

  // ---------------------------------------------------------------------------
  // Character classes
  // ---------------------------------------------------------------------------

  /** `Char.isWhitespace()` on the JVM: `Character.isWhitespace(c) || Character.isSpaceChar(c)`. */
  predicate IsWhitespace(c: char) {
    || c == ' '
    || ('\t' <= c <= '\r')
    || ('\U{1C}' <= c <= '\U{1F}')
    || c == '\U{A0}' || c == '\U{1680}'
    || ('\U{2000}' <= c <= '\U{200A}')
    || c == '\U{2028}' || c == '\U{2029}' || c == '\U{202F}' || c == '\U{205F}' || c == '\U{3000}'
  }

  /** `Char.isDigit()`, restricted to the ASCII decimal digits. */
  predicate IsDigit(c: char) {
    '0' <= c <= '9'
  }

  /** The regular-expression class `\s` of java.util.regex: `[ \t\n\x0B\f\r]`. */
  predicate IsRegexSpace(c: char) {
    c == ' ' || c == '\t' || c == '\n' || c == '\U{B}' || c == '\U{C}' || c == '\r'
  }

  /** The characters that the regular-expression `.` does not match. */
  predicate IsLineTerminator(c: char) {
    c == '\n' || c == '\r' || c == '\U{85}' || c == '\U{2028}' || c == '\U{2029}'
  }

  predicate AllWhitespace(s: string) {
    forall i :: 0 <= i < |s| ==> IsWhitespace(s[i])
  }

  /** No leading and no trailing whitespace. */
  predicate IsTrimmed(s: string) {
    s == [] || (!IsWhitespace(s[0]) && !IsWhitespace(s[|s| - 1]))
  }

  // ---------------------------------------------------------------------------
  // trim()
  // ---------------------------------------------------------------------------

  function TrimStart(s: string): (r: string)
    ensures |r| <= |s| && r == s[|s| - |r|..]
    ensures r == [] || !IsWhitespace(r[0])
    decreases |s|
  {
    if s != [] && IsWhitespace(s[0]) then TrimStart(s[1..]) else s
  }

  lemma {:induction false} TrimStartDrops(s: string)
    ensures AllWhitespace(s[..|s| - |TrimStart(s)|])
    decreases |s|
  {
    if s != [] && IsWhitespace(s[0]) {
      TrimStartDrops(s[1..]);
      var d := |s| - |TrimStart(s)|;
      forall i | 0 <= i < d ensures IsWhitespace(s[..d][i]) {
        if i > 0 {
          assert s[..d][i] == s[1..][..d - 1][i - 1];
        }
      }
    }
  }

  function TrimEnd(s: string): (r: string)
    ensures |r| <= |s| && r == s[..|r|]
    ensures r == [] || !IsWhitespace(r[|r| - 1])
    decreases |s|
  {
    if s != [] && IsWhitespace(s[|s| - 1]) then TrimEnd(s[..|s| - 1]) else s
  }

  lemma {:induction false} TrimEndDrops(s: string)
    ensures AllWhitespace(s[|TrimEnd(s)|..])
    decreases |s|
  {
    if s != [] && IsWhitespace(s[|s| - 1]) {
      TrimEndDrops(s[..|s| - 1]);
      var n := |TrimEnd(s)|;
      forall i | n <= i < |s| ensures IsWhitespace(s[i]) {
        if i < |s| - 1 {
          assert s[i] == s[..|s| - 1][n..][i - n];
        }
      }
    }
  }

  /** Number of whitespace characters `trim()` removes from the front of `s`. */
  function Lead(s: string): nat {
    |s| - |TrimStart(s)|
  }

  /** `String.trim()`: the slice of `s` between its leading and its trailing whitespace. */
  function Trim(s: string): (r: string)
    ensures IsTrimmed(r)
    ensures Lead(s) + |r| <= |s| && r == s[Lead(s)..Lead(s) + |r|]
  {
    var t := TrimStart(s);
    assert TrimEnd(t) == [] || TrimEnd(t)[0] == t[0];
    TrimEnd(t)
  }

  /** What `trim()` removes is whitespace. */
  lemma TrimDrops(s: string)
    ensures AllWhitespace(s[..Lead(s)]) && AllWhitespace(s[Lead(s) + |Trim(s)|..])
  {
    var t := TrimStart(s);
    TrimStartDrops(s);
    TrimEndDrops(t);
    assert s[Lead(s) + |Trim(s)|..] == t[|TrimEnd(t)|..];
  }

  lemma TrimOfTrimmed(s: string)
    requires IsTrimmed(s)
    ensures Trim(s) == s
  {
  }

  /** Trimming adds no character. */
  lemma TrimKeepsOut(s: string, c: char)
    requires c !in s
    ensures c !in Trim(s)
  {
    var r := Trim(s);
    forall i | 0 <= i < |r| ensures r[i] != c {
      assert r[i] == s[Lead(s) + i];
    }
  }

  lemma TrimEmptyIff(s: string)
    ensures Trim(s) == [] <==> AllWhitespace(s)
  {
    var r := Trim(s);
    TrimDrops(s);
    if r == [] {
      assert s == s[..Lead(s)] + s[Lead(s)..];
    } else {
      assert !IsWhitespace(s[Lead(s)]);
    }
  }

  // ---------------------------------------------------------------------------
  // lines() and joinToString()
  // ---------------------------------------------------------------------------

  /** `CharSequence.lines()`: split at "\r\n", "\n" and "\r"; a trailing terminator leaves an empty last line. */
  function Lines(s: string): (r: seq<string>)
    ensures |r| >= 1
    ensures forall k :: 0 <= k < |r| ==> '\n' !in r[k] && '\r' !in r[k]
    decreases |s|
  {
    if s == [] then [[]]
    else if s[0] == '\n' then [[]] + Lines(s[1..])
    else if s[0] == '\r' then [[]] + Lines(if |s| > 1 && s[1] == '\n' then s[2..] else s[1..])
    else
      var t := Lines(s[1..]);
      [[s[0]] + t[0]] + t[1..]
  }

  lemma AppendAssoc<T>(a: seq<T>, b: seq<T>, c: seq<T>)
    ensures a + (b + c) == (a + b) + c
  {
  }

  /** `Iterable<String>.joinToString(sep)`. */
  function Join(sep: string, xs: seq<string>): string
    decreases |xs|
  {
    if xs == [] then []
    else if |xs| == 1 then xs[0]
    else xs[0] + sep + Join(sep, xs[1..])
  }

  lemma {:induction false} JoinSnoc(sep: string, xs: seq<string>, y: string)
    requires xs != []
    ensures Join(sep, xs + [y]) == Join(sep, xs) + sep + y
    decreases |xs|
  {
    if |xs| == 1 {
      assert xs + [y] == [xs[0], y];
    } else {
      assert (xs + [y])[1..] == xs[1..] + [y];
      JoinSnoc(sep, xs[1..], y);
    }
  }

  lemma {:induction false} JoinAppend(sep: string, xs: seq<string>, ys: seq<string>)
    requires xs != [] && ys != []
    ensures Join(sep, xs + ys) == Join(sep, xs) + sep + Join(sep, ys)
    decreases |xs|
  {
    if |xs| == 1 {
      assert (xs + ys)[1..] == ys;
    } else {
      assert (xs + ys)[1..] == xs[1..] + ys;
      JoinAppend(sep, xs[1..], ys);
    }
  }

  /** Non-empty trimmed strings joined with any separator give a non-empty trimmed string. */
  lemma {:induction false} JoinTrimmed(sep: string, xs: seq<string>)
    requires xs != [] && forall k :: 0 <= k < |xs| ==> xs[k] != [] && IsTrimmed(xs[k])
    ensures Join(sep, xs) != [] && IsTrimmed(Join(sep, xs))
    decreases |xs|
  {
    if |xs| > 1 {
      JoinTrimmed(sep, xs[1..]);
    }
  }

  /** Joining the lines of a text without carriage returns gives the text back. */
  lemma {:induction false} JoinLinesOfText(s: string)
    requires '\r' !in s
    ensures Join("\n", Lines(s)) == s
    decreases |s|
  {
    if s != [] {
      var t := Lines(s[1..]);
      JoinLinesOfText(s[1..]);
      if s[0] == '\n' {
        JoinBlankHead(t);
      } else {
        assert s[0] != '\r';
        JoinGlue(s[0], t);
      }
      assert s == [s[0]] + s[1..];
    }
  }

  /** An empty first line adds a separator in front of the rest. */
  lemma JoinBlankHead(t: seq<string>)
    requires t != []
    ensures Join("\n", [[]] + t) == "\n" + Join("\n", t)
  {
    assert ([[]] + t)[1..] == t;
  }

  /** A character glued to the front of the first line lands in front of the joined text. */
  lemma JoinGlue(c: char, t: seq<string>)
    requires t != []
    ensures Join("\n", [[c] + t[0]] + t[1..]) == [c] + Join("\n", t)
  {
    var r := [[c] + t[0]] + t[1..];
    assert r[1..] == t[1..];
  }

  lemma {:induction false} LinesOfLine(x: string)
    requires '\n' !in x && '\r' !in x
    ensures Lines(x) == [x]
    decreases |x|
  {
    if x != [] {
      LinesOfLine(x[1..]);
      assert [x[0]] + x[1..] == x;
    }
  }

  lemma {:induction false} LinesOfLineThen(x: string, y: string)
    requires '\n' !in x && '\r' !in x
    ensures Lines(x + "\n" + y) == [x] + Lines(y)
    decreases |x|
  {
    if x == [] {
      assert x + "\n" + y == "\n" + y;
      assert ("\n" + y)[1..] == y;
    } else {
      var s := x + "\n" + y;
      assert s[0] == x[0];
      assert s[1..] == x[1..] + "\n" + y;
      LinesOfLineThen(x[1..], y);
      assert [x[0]] + x[1..] == x;
    }
  }

  /** Splitting the join of lines that hold no line terminator gives the lines back. */
  lemma {:induction false} LinesOfJoin(xs: seq<string>)
    requires xs != []
    requires forall k :: 0 <= k < |xs| ==> '\n' !in xs[k] && '\r' !in xs[k]
    ensures Lines(Join("\n", xs)) == xs
    decreases |xs|
  {
    if |xs| == 1 {
      LinesOfLine(xs[0]);
    } else {
      LinesOfJoin(xs[1..]);
      LinesOfLineThen(xs[0], Join("\n", xs[1..]));
      assert xs == [xs[0]] + xs[1..];
    }
  }

  // ---------------------------------------------------------------------------
  // filter { }: the characters that survive whitespace handling
  // ---------------------------------------------------------------------------

  /** `String.filter(p)`. */
  function Filter(p: char -> bool, s: string): string
    decreases |s|
  {
    if s == [] then []
    else (if p(s[0]) then [s[0]] else []) + Filter(p, s[1..])
  }

  predicate IsInk(c: char) {
    !IsWhitespace(c)
  }

  /** A character that is neither whitespace nor a control character below 0x20. */
  predicate IsVisible(c: char) {
    !IsWhitespace(c) && c as int >= 0x20
  }

  /** The non-whitespace characters of `s`, in order. */
  function Ink(s: string): string {
    Filter(IsInk, s)
  }

  /** The visible characters of `s`, in order. */
  function Visible(s: string): string {
    Filter(IsVisible, s)
  }

  /** A filter that never keeps whitespace. */
  ghost predicate DropsWhitespace(p: char -> bool) {
    forall c :: p(c) ==> !IsWhitespace(c)
  }

  lemma InkAndVisibleDropWhitespace()
    ensures DropsWhitespace(IsInk) && DropsWhitespace(IsVisible)
  {
  }

  lemma {:induction false} FilterAppend(p: char -> bool, a: string, b: string)
    ensures Filter(p, a + b) == Filter(p, a) + Filter(p, b)
    decreases |a|
  {
    if a != [] {
      assert (a + b)[1..] == a[1..] + b;
      FilterAppend(p, a[1..], b);
    } else {
      assert a + b == b;
    }
  }

  lemma {:induction false} FilterOfWhitespace(p: char -> bool, s: string)
    requires DropsWhitespace(p) && AllWhitespace(s)
    ensures Filter(p, s) == []
    decreases |s|
  {
    if s != [] {
      FilterOfWhitespace(p, s[1..]);
    }
  }

  /** Trimming only removes characters that a whitespace-dropping filter ignores. */
  lemma FilterTrim(p: char -> bool, s: string)
    requires DropsWhitespace(p)
    ensures Filter(p, Trim(s)) == Filter(p, s)
  {
    var l, r := Lead(s), Trim(s);
    TrimDrops(s);
    assert s == s[..l] + r + s[l + |r|..];
    FilterAppend(p, s[..l] + r, s[l + |r|..]);
    FilterAppend(p, s[..l], r);
    FilterOfWhitespace(p, s[..l]);
    FilterOfWhitespace(p, s[l + |r|..]);
  }

  /** The non-whitespace characters of a list of strings, in order. */
  function InkAll(xs: seq<string>): string
    decreases |xs|
  {
    if xs == [] then [] else Ink(xs[0]) + InkAll(xs[1..])
  }

  lemma {:induction false} InkOfJoin(sep: string, xs: seq<string>)
    requires AllWhitespace(sep)
    ensures Ink(Join(sep, xs)) == InkAll(xs)
    decreases |xs|
  {
    if |xs| == 1 {
      assert InkAll(xs) == Ink(xs[0]) + InkAll([]);
    } else if |xs| > 1 {
      InkOfJoin(sep, xs[1..]);
      InkAndVisibleDropWhitespace();
      FilterAppend(IsInk, xs[0] + sep, Join(sep, xs[1..]));
      FilterAppend(IsInk, xs[0], sep);
      FilterOfWhitespace(IsInk, sep);
    }
  }

  /** Concatenation of a list of strings. */
  function Concat(xs: seq<string>): string
    decreases |xs|
  {
    if xs == [] then [] else xs[0] + Concat(xs[1..])
  }

  lemma {:induction false} ConcatAppend(xs: seq<string>, ys: seq<string>)
    ensures Concat(xs + ys) == Concat(xs) + Concat(ys)
    decreases |xs|
  {
    if xs == [] {
      assert xs + ys == ys;
    } else {
      assert (xs + ys)[1..] == xs[1..] + ys;
      ConcatAppend(xs[1..], ys);
    }
  }

  // ---------------------------------------------------------------------------
  // Decimal numbers: Int.toString(), "%05d", String.toIntOrNull()
  // ---------------------------------------------------------------------------

  const IntMin: int := -0x8000_0000
  const IntMax: int := 0x7FFF_FFFF

  predicate AllDigits(s: string) {
    forall i :: 0 <= i < |s| ==> IsDigit(s[i])
  }

  function DigitChar(d: nat): (c: char)
    requires d < 10
    ensures IsDigit(c) && c as int - '0' as int == d
  {
    ('0' as int + d) as char
  }

  /** The value of a string of decimal digits (leading zeros allowed). */
  function DigitsValue(s: string): nat
    requires AllDigits(s)
    decreases |s|
  {
    if s == [] then 0
    else DigitsValue(s[..|s| - 1]) * 10 + (s[|s| - 1] as int - '0' as int)
  }

  /** `Int.toString()` of a non-negative number. */
  function Decimal(n: nat): (r: string)
    ensures 1 <= |r| && AllDigits(r)
    ensures |r| > 1 ==> r[0] != '0'
  {
    if n < 10 then [DigitChar(n)] else Decimal(n / 10) + [DigitChar(n % 10)]
  }

  lemma {:induction false} DecimalValue(n: nat)
    ensures DigitsValue(Decimal(n)) == n
  {
    if n >= 10 {
      DecimalValue(n / 10);
      var r := Decimal(n);
      assert r[..|r| - 1] == Decimal(n / 10);
    }
  }

  lemma {:induction false} DigitsValueLeadingZeros(k: nat, s: string)
    requires AllDigits(s)
    ensures AllDigits(Zeros(k) + s) && DigitsValue(Zeros(k) + s) == DigitsValue(s)
    decreases |s|
  {
    if s == [] {
      ZerosValue(k);
      assert Zeros(k) + s == Zeros(k);
    } else {
      var t := Zeros(k) + s;
      assert t[..|t| - 1] == Zeros(k) + s[..|s| - 1];
      DigitsValueLeadingZeros(k, s[..|s| - 1]);
    }
  }

  lemma {:induction false} ZerosValue(k: nat)
    ensures AllDigits(Zeros(k)) && DigitsValue(Zeros(k)) == 0
  {
    if k > 0 {
      ZerosValue(k - 1);
      assert Zeros(k)[..k - 1] == Zeros(k - 1);
    }
  }

  function Zeros(k: nat): (r: string)
    ensures |r| == k && forall i :: 0 <= i < k ==> r[i] == '0'
  {
    if k == 0 then [] else Zeros(k - 1) + "0"
  }

  /** `"%05d".format(n)` for a non-negative `n`: its decimal form, left-padded with zeros to five characters, in ASCII digits. */
  function Pad5(n: nat): (r: string)
    ensures |r| == if |Decimal(n)| < 5 then 5 else |Decimal(n)|
    ensures AllDigits(r) && DigitsValue(r) == n
  {
    var d := Decimal(n);
    var z := if |d| < 5 then 5 - |d| else 0;
    DecimalValue(n);
    DigitsValueLeadingZeros(z, d);
    Zeros(z) + d
  }

  /** `Int.toString()`. */
  function IntToString(n: int): string {
    if n < 0 then "-" + Decimal(-n) else Decimal(n)
  }

  /** `String.toIntOrNull()`: an optional sign, at least one digit, and a value that fits in 32 bits. */
  function ToIntOrNull(s: string): (r: Option<int>)
    ensures r.Some? ==> IntMin <= r.value <= IntMax
  {
    if s == [] then None
    else if s[0] < '0' then
      if |s| == 1 then None
      else if s[0] == '-' then
        if AllDigits(s[1..]) && -(DigitsValue(s[1..]) as int) >= IntMin then Some(-(DigitsValue(s[1..]) as int)) else None
      else if s[0] == '+' then
        if AllDigits(s[1..]) && DigitsValue(s[1..]) <= IntMax then Some(DigitsValue(s[1..])) else None
      else None
    else if AllDigits(s) && DigitsValue(s) <= IntMax then Some(DigitsValue(s))
    else None
  }

  /** Reading back what `Int.toString()` wrote gives the number back. */
  lemma IntRoundTrip(n: int)
    requires IntMin <= n <= IntMax
    ensures ToIntOrNull(IntToString(n)) == Some(n)
  {
    if n < 0 {
      DecimalValue(-n);
      assert IntToString(n)[1..] == Decimal(-n);
    } else {
      DecimalValue(n);
    }
  }

  /** A string with a character that is neither a digit nor a leading sign is not a number. */
  lemma NotANumber(s: string, i: nat)
    requires i < |s| && !IsDigit(s[i]) && !(i == 0 && (s[0] == '-' || s[0] == '+'))
    ensures ToIntOrNull(s) == None
  {
    if s[0] < '0' && |s| > 1 && (s[0] == '-' || s[0] == '+') {
      assert s[1..][i - 1] == s[i];
    }
  }
}
