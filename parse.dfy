/** Reading a move from a line of text: "<row>,<col>", each number
    optionally surrounded by whitespace. */
module Parsing {
  import opened Cells

  /** Why a line is refused. */
  datatype InputError = WrongInputCount | InvalidNumber

  /** The largest `usize` on a 64-bit target. */
  const UsizeMax: nat := 0xFFFF_FFFF_FFFF_FFFF

  // ---------------------------------------------------------------------
  // Splitting on commas.

  function CommaCount(s: string): nat
  {
    if s == [] then 0 else (if s[0] == ',' then 1 else 0) + CommaCount(s[1..])
  }

  lemma {:induction false} CommaCountZero(s: string)
    ensures CommaCount(s) == 0 <==> ',' !in s
  {
    if s != [] {
      CommaCountZero(s[1..]);
      assert s == [s[0]] + s[1..];
    }
  }

  lemma {:induction false} CommaCountAppend(a: string, b: string)
    ensures CommaCount(a + b) == CommaCount(a) + CommaCount(b)
  {
    if a == [] {
      assert a + b == b;
    } else {
      assert (a + b)[0] == a[0] && (a + b)[1..] == a[1..] + b;
      CommaCountAppend(a[1..], b);
    }
  }

  /** The position of the first comma of `s`. */
  function FirstComma(s: string): (i: nat)
    requires ',' in s
    ensures i < |s| && s[i] == ',' && ',' !in s[..i]
  {
    if s[0] == ',' then 0
    else
      var i := 1 + FirstComma(s[1..]);
      assert s[..i] == [s[0]] + s[1..][..i - 1];
      i
  }

  /** The parts joined back with a comma between each two. */
  function Join(parts: seq<string>): string
    requires |parts| > 0
  {
    if |parts| == 1 then parts[0] else parts[0] + "," + Join(parts[1..])
  }

  /** `s` cut at every comma, as `str::split(',')` cuts it: a string with
      n commas gives n + 1 parts, none holding a comma, and they join back
      to `s`. */
  function Split(s: string): (parts: seq<string>)
    ensures |parts| == CommaCount(s) + 1
    ensures forall k :: 0 <= k < |parts| ==> ',' !in parts[k]
    ensures Join(parts) == s
    decreases |s|
  {
    if ',' !in s then
      CommaCountZero(s);
      [s]
    else
      var i := FirstComma(s);
      var rest := Split(s[i + 1..]);
      assert s == s[..i] + "," + s[i + 1..];
      assert CommaCount(s) == CommaCount(s[..i]) + 1 + CommaCount(s[i + 1..]) by {
        assert s == s[..i] + ("," + s[i + 1..]);
        CommaCountAppend(s[..i], "," + s[i + 1..]);
        CommaCountAppend(",", s[i + 1..]);
      }
      CommaCountZero(s[..i]);
      assert ([s[..i]] + rest)[1..] == rest;
      [s[..i]] + rest
  }

  /** Two comma-free strings with one comma between them split back into
      the two. */
  lemma SplitPair(a: string, b: string)
    requires ',' !in a && ',' !in b
    ensures Split(a + "," + b) == [a, b]
  {
    var s := a + "," + b;
    var i := FirstComma(s);
    assert s[|a|] == ',';
    assert i == |a|;
    assert s[..i] == a && s[i + 1..] == b;
  }

  // ---------------------------------------------------------------------
  // Trimming whitespace.

  /** The ASCII characters that Unicode's White_Space property includes:
      tab, line feed, vertical tab, form feed, carriage return and space. */
  predicate IsWhitespace(c: char)
  {
    c == ' ' || c == '\t' || c == '\n' || c == '\r' || c == '\U{000B}' || c == '\U{000C}'
  }

  predicate AllWhitespace(s: string)
  {
    forall k :: 0 <= k < |s| ==> IsWhitespace(s[k])
  }

  /** How many whitespace characters `s` starts with. */
  function LeadingSpace(s: string): (n: nat)
    ensures n <= |s| && AllWhitespace(s[..n])
    ensures n < |s| ==> !IsWhitespace(s[n])
  {
    if s != [] && IsWhitespace(s[0]) then
      var n := 1 + LeadingSpace(s[1..]);
      assert s[..n] == [s[0]] + s[1..][..n - 1];
      n
    else 0
  }

  /** How many whitespace characters `s` ends with. */
  function TrailingSpace(s: string): (n: nat)
    ensures n <= |s| && AllWhitespace(s[|s| - n..])
    ensures n < |s| ==> !IsWhitespace(s[|s| - n - 1])
  {
    if s != [] && IsWhitespace(s[|s| - 1]) then
      var m := TrailingSpace(s[..|s| - 1]);
      TrailingSpaceGrows(s, m);
      m + 1
    else 0
  }

  /** One more whitespace character at the end extends the trailing run. */
  lemma TrailingSpaceGrows(s: string, m: nat)
    requires m < |s| && IsWhitespace(s[|s| - 1])
    requires AllWhitespace(s[..|s| - 1][|s| - 1 - m..])
    ensures AllWhitespace(s[|s| - (m + 1)..])
  {
    var init, t := s[..|s| - 1], s[|s| - (m + 1)..];
    forall k | 0 <= k < |t| ensures IsWhitespace(t[k]) {
      if k < m {
        assert t[k] == init[|init| - m..][k];
      }
    }
  }

  /** `str::trim`: `s` without the whitespace at either end. What is
      left is empty only when `s` is all whitespace, and otherwise starts
      and ends with a character that is not whitespace. */
  function Trim(s: string): (r: string)
    ensures r == [] <==> AllWhitespace(s)
    ensures r != [] ==> !IsWhitespace(r[0]) && !IsWhitespace(r[|r| - 1])
    ensures exists i, j :: 0 <= i <= j <= |s| && r == s[i..j] && AllWhitespace(s[..i]) && AllWhitespace(s[j..])
  {
    var i := LeadingSpace(s);
    var t := s[i..];
    var r := t[..|t| - TrailingSpace(t)];
    assert r == [] ==> AllWhitespace(s) by {
      if r == [] {
        assert i == |s|;
        assert s[..i] == s;
      }
    }
    assert r != [] ==> r[0] == s[i];
    var j := i + |r|;
    assert r == s[i..j] && s[j..] == t[|t| - TrailingSpace(t)..];
    r
  }

  /** Leading whitespace is what LeadingSpace counts, and all it counts. */
  lemma {:induction false} LeadingSpacePadded(a: string, t: string)
    requires AllWhitespace(a)
    requires t == [] || !IsWhitespace(t[0])
    ensures LeadingSpace(a + t) == |a|
  {
    if a != [] {
      assert (a + t)[1..] == a[1..] + t;
      LeadingSpacePadded(a[1..], t);
    }
  }

  lemma {:induction false} TrailingSpacePadded(t: string, b: string)
    requires AllWhitespace(b)
    requires t == [] || !IsWhitespace(t[|t| - 1])
    ensures TrailingSpace(t + b) == |b|
  {
    if b != [] {
      assert (t + b)[..|t + b| - 1] == t + b[..|b| - 1];
      TrailingSpacePadded(t, b[..|b| - 1]);
    } else {
      assert t + b == t;
    }
  }

  /** Whitespace around a word is what trim removes, and all it removes. */
  lemma TrimPadded(a: string, t: string, b: string)
    requires AllWhitespace(a) && AllWhitespace(b)
    requires t != [] && !IsWhitespace(t[0]) && !IsWhitespace(t[|t| - 1])
    ensures Trim(a + t + b) == t
  {
    assert a + t + b == a + (t + b);
    LeadingSpacePadded(a, t + b);
    assert (a + t + b)[|a|..] == t + b;
    TrailingSpacePadded(t, b);
    assert (t + b)[..|t|] == t;
  }

  // ---------------------------------------------------------------------
  // Decimal numbers.

  predicate IsDigit(c: char)
  {
    '0' <= c <= '9'
  }

  predicate AllDigits(s: string)
  {
    forall k :: 0 <= k < |s| ==> IsDigit(s[k])
  }

  function DigitValue(c: char): nat
    requires IsDigit(c)
  {
    c as int - '0' as int
  }

  function DigitChar(d: nat): char
    requires d < 10
  {
    ('0' as int + d) as char
  }

  /** The number a string of decimal digits denotes, most significant digit
      first; leading zeros do not change it. */
  function DecimalValue(s: string): nat
    requires AllDigits(s)
  {
    if s == [] then 0 else 10 * DecimalValue(s[..|s| - 1]) + DigitValue(s[|s| - 1])
  }

  /** The decimal rendering of `n`, without leading zeros; its digits denote
      `n`. */
  function Decimal(n: nat): (s: string)
    ensures s != [] && AllDigits(s)
    ensures DecimalValue(s) == n
    ensures s[0] != '0' || n == 0
  {
    if n < 10 then [DigitChar(n)]
    else
      var s := Decimal(n / 10) + [DigitChar(n % 10)];
      assert s[..|s| - 1] == Decimal(n / 10);
      s
  }

  /** A leading zero does not change the value of a string of digits. */
  lemma {:induction false} LeadingZero(s: string)
    requires AllDigits(s)
    ensures AllDigits("0" + s) && DecimalValue("0" + s) == DecimalValue(s)
  {
    if s != [] {
      var z := "0" + s;
      assert z[..|z| - 1] == "0" + s[..|s| - 1];
      LeadingZero(s[..|s| - 1]);
    }
  }

  /** `k` zeros. */
  function Zeros(k: nat): (z: string)
    ensures |z| == k && AllDigits(z)
  {
    if k == 0 then "" else "0" + Zeros(k - 1)
  }

  /** Any number of leading zeros leaves the value of a string of digits
      as it was. */
  lemma {:induction false} ZerosPadded(k: nat, s: string)
    requires AllDigits(s)
    ensures AllDigits(Zeros(k) + s) && DecimalValue(Zeros(k) + s) == DecimalValue(s)
  {
    if k > 0 {
      var rest := Zeros(k - 1) + s;
      ZerosPadded(k - 1, s);
      LeadingZero(rest);
      assert Zeros(k) == "0" + Zeros(k - 1);
      assert Zeros(k) + s == "0" + rest;
    } else {
      assert Zeros(k) + s == s;
    }
  }

  /** `s` without the one `+` it may start with. */
  function Unsigned(s: string): string
  {
    if s != [] && s[0] == '+' then s[1..] else s
  }

  /** At least one digit, nothing else, and a value a `usize` can hold. */
  predicate FitsUsize(d: string)
  {
    d != [] && AllDigits(d) && DecimalValue(d) <= UsizeMax
  }

  /** `<usize as FromStr>::from_str`: an optional `+`, then at least one
      decimal digit and nothing else, denoting a value that fits in a
      `usize`. */
  function ParseUsize(s: string): (r: Option<nat>)
    ensures r.Some? <==> FitsUsize(Unsigned(s))
    ensures s == [] ==> r == None
    ensures s == "+" ==> r == None
    ensures s != [] && s[0] == '-' ==> r == None
    ensures r.Some? ==> r.value <= UsizeMax
    ensures r.Some? && s[0] != '+' ==> AllDigits(s) && r.value == DecimalValue(s)
    ensures r.Some? && s[0] == '+' ==> AllDigits(s[1..]) && r.value == DecimalValue(s[1..])
  {
    var digits := Unsigned(s);
    if digits == [] || !AllDigits(digits) then None
    else
      var v := DecimalValue(digits);
      if v <= UsizeMax then Some(v) else None
  }

  /** Every number `usize` can hold reads back from its rendering, with or
      without a leading `+`, and none above it does. */
  lemma ParseUsizeDecimal(n: nat)
    ensures n <= UsizeMax ==> ParseUsize(Decimal(n)) == Some(n) && ParseUsize("+" + Decimal(n)) == Some(n)
    ensures n > UsizeMax ==> ParseUsize(Decimal(n)) == None && ParseUsize("+" + Decimal(n)) == None
  {
    assert ("+" + Decimal(n))[1..] == Decimal(n);
  }

  /** Leading zeros are accepted and ignored, with or without a `+`: "07"
      and "+007" read as 7, "00" and "+0" as 0. */
  lemma ParseUsizeZeroPadded(k: nat, n: nat)
    requires n <= UsizeMax
    ensures ParseUsize(Zeros(k) + Decimal(n)) == Some(n)
    ensures ParseUsize("+" + Zeros(k) + Decimal(n)) == Some(n)
  {
    var d := Zeros(k) + Decimal(n);
    ZerosPadded(k, Decimal(n));
    assert d != [] && DecimalValue(d) == n;
    ParseUsizeDigits(d);
    assert "+" + Zeros(k) + Decimal(n) == "+" + d;
  }

  /** Any nonempty string of digits whose value fits is accepted, with or
      without a `+`, and reads as that value. */
  lemma ParseUsizeDigits(d: string)
    requires d != [] && AllDigits(d) && DecimalValue(d) <= UsizeMax
    ensures ParseUsize(d) == Some(DecimalValue(d))
    ensures ParseUsize("+" + d) == Some(DecimalValue(d))
  {
    assert IsDigit(d[0]);
    assert ("+" + d)[1..] == d;
  }

  // ---------------------------------------------------------------------
  // A whole line.

  /** parse_input: the line must split on commas into exactly two parts,
      and each part, trimmed, must parse as a `usize`. The numbers are not
      checked against the board size. */
  function ParseInput(line: string): (r: Result<(nat, nat), InputError>)
    ensures r == Err(WrongInputCount) <==> CommaCount(line) != 1
    ensures r.Ok? ==> r.value.0 <= UsizeMax && r.value.1 <= UsizeMax
  {
    var parts := Split(line);
    if |parts| != 2 then Err(WrongInputCount)
    else NumberPair(ParseUsize(Trim(parts[0])), ParseUsize(Trim(parts[1])))
  }

  /** Both numbers, or the error for a part that is not one. */
  function NumberPair(row: Option<nat>, col: Option<nat>): Result<(nat, nat), InputError>
  {
    if row.Some? && col.Some? then Ok((row.value, col.value)) else Err(InvalidNumber)
  }

  /** A line with exactly one comma is judged by the two trimmed numbers on
      either side of it. */
  lemma ParseInputAtComma(a: string, b: string)
    requires ',' !in a && ',' !in b
    ensures ParseInput(a + "," + b) == NumberPair(ParseUsize(Trim(a)), ParseUsize(Trim(b)))
  {
    SplitPair(a, b);
  }

  /** Two numbers that fit in a `usize`, rendered in decimal with a comma
      between them and any whitespace around each (such as the line feed
      that reading a line leaves), parse back to the same pair. */
  lemma ParseInputRoundTrip(row: nat, col: nat, w1: string, w2: string, w3: string, w4: string)
    requires row <= UsizeMax && col <= UsizeMax
    requires AllWhitespace(w1) && AllWhitespace(w2) && AllWhitespace(w3) && AllWhitespace(w4)
    ensures ParseInput(w1 + Decimal(row) + w2 + "," + w3 + Decimal(col) + w4) == Ok((row, col))
  {
    var a, b := w1 + Decimal(row) + w2, w3 + Decimal(col) + w4;
    Regroup(w1, Decimal(row), w2, w3, Decimal(col), w4);
    PaddedNumber(w1, row, w2);
    PaddedNumber(w3, col, w4);
    ParseInputNumbers(a, b, row, col);
  }

  lemma Regroup(w1: string, d: string, w2: string, w3: string, e: string, w4: string)
    ensures w1 + d + w2 + "," + w3 + e + w4 == (w1 + d + w2) + "," + (w3 + e + w4)
  {
  }

  /** A line with one comma whose sides trim and parse to two numbers gives
      that pair. */
  lemma ParseInputNumbers(a: string, b: string, row: nat, col: nat)
    requires ',' !in a && ',' !in b
    requires ParseUsize(Trim(a)) == Some(row) && ParseUsize(Trim(b)) == Some(col)
    ensures ParseInput(a + "," + b) == Ok((row, col))
  {
    ParseInputAtComma(a, b);
  }

  /** A number with whitespace around it holds no comma and trims and
      parses back to itself. */
  lemma PaddedNumber(w: string, n: nat, w': string)
    requires n <= UsizeMax && AllWhitespace(w) && AllWhitespace(w')
    ensures ',' !in w + Decimal(n) + w'
    ensures ParseUsize(Trim(w + Decimal(n) + w')) == Some(n)
  {
    var d := Decimal(n);
    NoCommaInPadded(w, d, w');
    assert !IsWhitespace(d[0]) && !IsWhitespace(d[|d| - 1]) by {
      assert IsDigit(d[0]) && IsDigit(d[|d| - 1]);
    }
    TrimPadded(w, d, w');
    ParseUsizeDecimal(n);
  }

  lemma NoCommaInPadded(a: string, d: string, b: string)
    requires AllWhitespace(a) && AllDigits(d) && AllWhitespace(b)
    ensures ',' !in a + d + b
  {
    var s := a + d + b;
    forall k | 0 <= k < |s| ensures s[k] != ',' {
      if k < |a| { assert s[k] == a[k]; }
      else if k < |a| + |d| { assert s[k] == d[k - |a|]; }
      else { assert s[k] == b[k - |a| - |d|]; }
    }
  }

  /** A line with exactly one comma and a side that does not trim to a
      `usize` (a letter, a minus sign, nothing at all) is refused as an
      invalid number. */
  lemma ParseInputBadNumber(a: string, b: string)
    requires ',' !in a && ',' !in b
    requires ParseUsize(Trim(a)).None? || ParseUsize(Trim(b)).None?
    ensures ParseInput(a + "," + b) == Err(InvalidNumber)
  {
    ParseInputAtComma(a, b);
  }
}
