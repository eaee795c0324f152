/** The string operations the data-entry grid leans on: stripping a cell to
    the characters of a number, reading the decimal number at the start of
    the stripped text, splitting on tabs and on line breaks, and the
    whitespace test behind `trim`. */
module Text {
  import opened Types

  predicate IsDigit(c: char) {
    '0' <= c <= '9'
  }

  /** The characters `/[^0-9.-]/g` keeps. */
  predicate IsNumberChar(c: char) {
    IsDigit(c) || c == '.' || c == '-'
  }

  /** `value.replace(/[^0-9.-]/g, '')`: drops every other character. */
  function Clean(s: string): (r: string)
    ensures |r| <= |s|
    ensures forall i :: 0 <= i < |r| ==> IsNumberChar(r[i])
    ensures forall c :: c in r <==> c in s && IsNumberChar(c)
    decreases |s|
  {
    if |s| == 0 then ""
    else
      var rest := Clean(s[1..]);
      assert forall c :: c in s <==> c == s[0] || c in s[1..];
      if IsNumberChar(s[0]) then [s[0]] + rest else rest
  }

  /** Stripping distributes over concatenation. */
  lemma {:induction false} CleanAppend(a: string, b: string)
    ensures Clean(a + b) == Clean(a) + Clean(b)
    decreases |a|
  {
    if |a| > 0 {
      assert (a + b)[0] == a[0];
      assert (a + b)[1..] == a[1..] + b;
      CleanAppend(a[1..], b);
    } else {
      assert a + b == b;
    }
  }

  /** Text made only of number characters is left as it is, so stripping
      twice is stripping once. */
  lemma {:induction false} CleanKeepsNumberText(s: string)
    requires forall i :: 0 <= i < |s| ==> IsNumberChar(s[i])
    ensures Clean(s) == s
    decreases |s|
  {
    if |s| > 0 {
      CleanKeepsNumberText(s[1..]);
    }
  }

  lemma CleanIdempotent(s: string)
    ensures Clean(Clean(s)) == Clean(s)
  {
    CleanKeepsNumberText(Clean(s));
  }

  /** Length of the run of digits at the start of `s`. */
  function DigitRun(s: string): (n: nat)
    ensures n <= |s|
    ensures forall i :: 0 <= i < n ==> IsDigit(s[i])
    ensures n < |s| ==> !IsDigit(s[n])
    decreases |s|
  {
    if |s| > 0 && IsDigit(s[0]) then 1 + DigitRun(s[1..]) else 0
  }

  function DigitValue(c: char): nat
    requires IsDigit(c)
  {
    (c - '0') as nat
  }

  /** The value of a run of decimal digits, most significant first. */
  function DigitsValue(ds: string): nat
    requires forall i :: 0 <= i < |ds| ==> IsDigit(ds[i])
    decreases |ds|
  {
    if |ds| == 0 then 0
    else DigitsValue(ds[..|ds| - 1]) * 10 + DigitValue(ds[|ds| - 1])
  }

  function Pow10(n: nat): (r: nat)
    ensures r > 0
  {
    if n == 0 then 1 else 10 * Pow10(n - 1)
  }

  /** The value of the digits after a decimal point. */
  function FractionValue(ds: string): (r: real)
    requires forall i :: 0 <= i < |ds| ==> IsDigit(ds[i])
    ensures ds == "" ==> r == 0.0
    ensures r >= 0.0
  {
    DigitsValue(ds) as real / Pow10(|ds|) as real
  }

  /** Whether `b` starts an unsigned decimal literal: a digit, or a '.'
      followed by a digit. */
  predicate StartsUnsigned(b: string) {
    (|b| > 0 && IsDigit(b[0])) || (|b| > 1 && b[0] == '.' && IsDigit(b[1]))
  }

  /** Whether `s`, after at most one leading '-', starts a decimal literal. */
  predicate StartsNumber(s: string) {
    if |s| > 0 && s[0] == '-' then StartsUnsigned(s[1..]) else StartsUnsigned(s)
  }

  /** The unsigned part of `parseFloat`: the longest prefix of the form
      `digits ('.' digits?)?` or `'.' digits`, read as an exact decimal. */
  function ParseUnsigned(b: string): (r: Option<real>)
    ensures r.None? <==> !StartsUnsigned(b)
    ensures r.Some? ==> r.value >= 0.0
  {
    var n := DigitRun(b);
    var rest := b[n..];
    var frac := if |rest| > 0 && rest[0] == '.' then rest[1..][..DigitRun(rest[1..])] else "";
    if n == 0 && |frac| == 0 then None
    else Some(DigitsValue(b[..n]) as real + FractionValue(frac))
  }

  /** `parseFloat` on stripped text: an optional leading '-' and then the
      unsigned literal; `None` stands for NaN, returned when no literal
      starts the text. */
  function ParseFloat(s: string): (r: Option<real>)
    ensures r.None? <==> !StartsNumber(s)
    ensures r.Some? && (|s| == 0 || s[0] != '-') ==> r.value >= 0.0
  {
    if |s| > 0 && s[0] == '-' then
      match ParseUnsigned(s[1..])
      case Some(v) => Some(-v)
      case None => None
    else ParseUnsigned(s)
  }

  function DigitChar(d: nat): (c: char)
    requires d < 10
    ensures IsDigit(c) && DigitValue(c) == d
  {
    ('0' as int + d) as char
  }

  /** The decimal text of a natural number, without leading zeros. */
  function NatText(n: nat): (s: string)
    ensures |s| > 0
    ensures forall i :: 0 <= i < |s| ==> IsDigit(s[i])
  {
    if n < 10 then [DigitChar(n)] else NatText(n / 10) + [DigitChar(n % 10)]
  }

  lemma {:induction false} NatTextValue(n: nat)
    ensures DigitsValue(NatText(n)) == n
  {
    var s := NatText(n);
    if n < 10 {
      assert s[..|s| - 1] == "";
    } else {
      assert s[..|s| - 1] == NatText(n / 10);
      NatTextValue(n / 10);
    }
  }

  /** A nonempty run of digits reads back as its decimal value. */
  lemma ParseDigits(s: string)
    requires |s| > 0 && forall i :: 0 <= i < |s| ==> IsDigit(s[i])
    ensures ParseUnsigned(s) == Some(DigitsValue(s) as real)
  {
    DigitRunAll(s);
    assert s[..|s|] == s;
  }

  lemma DigitRunAll(s: string)
    requires forall i :: 0 <= i < |s| ==> IsDigit(s[i])
    ensures DigitRun(s) == |s|
  {
  }

  /** Reading back the decimal text of a whole number gives that number,
      with or without a leading minus sign. */
  lemma ParseNatText(n: nat)
    ensures ParseFloat(NatText(n)) == Some(n as real)
    ensures ParseFloat("-" + NatText(n)) == Some(-(n as real))
  {
    NatTextValue(n);
    ParseDigits(NatText(n));
    assert ("-" + NatText(n))[1..] == NatText(n);
  }

  /** A lone minus sign, as typed on the way to a negative number, is NaN. */
  lemma LoneMinusIsNaN()
    ensures ParseFloat("-") == None
    ensures ParseFloat(".") == None
  {
  }

  /** Index of the first `sep` in `s`, or `|s|` when there is none. */
  function Find(s: string, sep: char): (k: nat)
    ensures k <= |s|
    ensures forall i :: 0 <= i < k ==> s[i] != sep
    ensures k < |s| ==> s[k] == sep
    decreases |s|
  {
    if |s| == 0 then 0 else if s[0] == sep then 0 else 1 + Find(s[1..], sep)
  }

  /** `s.split(sep)` for a one-character separator: always at least one
      piece, and no piece holds the separator. */
  function SplitOn(s: string, sep: char): (parts: seq<string>)
    ensures |parts| >= 1
    ensures forall i :: 0 <= i < |parts| ==> sep !in parts[i]
    decreases |s|
  {
    var k := Find(s, sep);
    if k == |s| then [s] else [s[..k]] + SplitOn(s[k + 1..], sep)
  }

  /** The pieces of a split put back together with `sep` between them. */
  function JoinWith(parts: seq<string>, sep: string): string
    decreases |parts|
  {
    if |parts| == 0 then ""
    else if |parts| == 1 then parts[0]
    else parts[0] + sep + JoinWith(parts[1..], sep)
  }

  /** Splitting loses nothing: joining the pieces with the separator gives
      back the original text. */
  lemma {:induction false} JoinSplitOn(s: string, sep: char)
    ensures JoinWith(SplitOn(s, sep), [sep]) == s
    decreases |s|
  {
    var k := Find(s, sep);
    if k < |s| {
      JoinSplitOn(s[k + 1..], sep);
      JoinCons(s[..k], SplitOn(s[k + 1..], sep), [sep]);
      assert s == s[..k] + [sep] + s[k + 1..];
    }
  }

  lemma JoinCons(a: string, xs: seq<string>, sep: string)
    requires |xs| >= 1
    ensures JoinWith([a] + xs, sep) == a + sep + JoinWith(xs, sep)
  {
    assert ([a] + xs)[1..] == xs;
  }

  /** And splitting a join of separator-free pieces gives back the pieces. */
  lemma {:induction false} SplitOnJoin(parts: seq<string>, sep: char)
    requires |parts| >= 1
    requires forall i :: 0 <= i < |parts| ==> sep !in parts[i]
    ensures SplitOn(JoinWith(parts, [sep]), sep) == parts
    decreases |parts|
  {
    var p := parts[0];
    if |parts| == 1 {
      FindAbsent(p, sep);
    } else {
      var s := JoinWith(parts, [sep]);
      var rest := JoinWith(parts[1..], [sep]);
      assert s == p + [sep] + rest;
      FindAfter(p, sep, rest);
      assert s[..|p|] == p;
      assert s[|p| + 1..] == rest;
      SplitOnJoin(parts[1..], sep);
    }
  }

  lemma FindAbsent(s: string, sep: char)
    requires sep !in s
    ensures Find(s, sep) == |s|
  {
  }

  lemma FindAfter(p: string, sep: char, rest: string)
    requires sep !in p
    ensures Find(p + [sep] + rest, sep) == |p|
  {
    var s := p + [sep] + rest;
    assert s[|p|] == sep;
    assert forall i :: 0 <= i < |p| ==> s[i] == p[i];
  }

  predicate IsLineBreak(c: char) {
    c == '\n' || c == '\r'
  }

  predicate NoLineBreak(s: string) {
    forall i :: 0 <= i < |s| ==> !IsLineBreak(s[i])
  }

  /** Index of the first line-break character, or `|s|`. */
  function FindBreak(s: string): (k: nat)
    ensures k <= |s|
    ensures NoLineBreak(s[..k])
    ensures k < |s| ==> IsLineBreak(s[k])
    decreases |s|
  {
    if |s| == 0 then 0
    else if IsLineBreak(s[0]) then 0
    else
      var k := 1 + FindBreak(s[1..]);
      assert forall i :: 1 <= i < k ==> s[..k][i] == s[1..][..k - 1][i - 1];
      k
  }

  /** `s.split(/\r\n|\n|\r/)`: "\r\n" is one separator, a lone "\n" or "\r"
      is one too. No row holds a line-break character. */
  function SplitLines(s: string): (rows: seq<string>)
    ensures |rows| >= 1
    ensures forall i :: 0 <= i < |rows| ==> NoLineBreak(rows[i])
    decreases |s|
  {
    var k := FindBreak(s);
    if k == |s| then
      assert s[..k] == s;
      [s]
    else
      [s[..k]] + SplitLines(s[k + BreakWidth(s, k)..])
  }

  /** The length of the line break at `k`: "\r\n" is one break of two. */
  function BreakWidth(s: string, k: nat): (w: nat)
    requires k < |s|
    ensures 1 <= w <= 2 && k + w <= |s|
  {
    if s[k] == '\r' && k + 1 < |s| && s[k + 1] == '\n' then 2 else 1
  }

  /** The three separators `SplitLines` recognises. */
  predicate IsLineSeparator(sep: string) {
    sep == "\n" || sep == "\r\n" || sep == "\r"
  }

  /** Rows without line breaks, joined by any one of the separators, split
      back into the same rows. */
  lemma {:induction false} SplitLinesJoin(rows: seq<string>, sep: string)
    requires |rows| >= 1
    requires forall i :: 0 <= i < |rows| ==> NoLineBreak(rows[i])
    requires IsLineSeparator(sep)
    ensures SplitLines(JoinWith(rows, sep)) == rows
    decreases |rows|
  {
    if |rows| == 1 {
      FindBreakAbsent(rows[0]);
    } else {
      var rest := JoinWith(rows[1..], sep);
      if sep == "\r" {
        JoinNoLeadingLF(rows[1..]);
      }
      SplitLinesStep(rows[0], sep, rest);
      SplitLinesJoin(rows[1..], sep);
      assert rows == [rows[0]] + rows[1..];
    }
  }

  /** One step of the split: a row without line breaks, a separator, and
      text that does not turn a "\r" separator into "\r\n". */
  lemma SplitLinesStep(p: string, sep: string, rest: string)
    requires NoLineBreak(p)
    requires IsLineSeparator(sep)
    requires sep == "\r" && |rest| > 0 ==> rest[0] != '\n'
    ensures SplitLines(p + sep + rest) == [p] + SplitLines(rest)
  {
    var s := p + sep + rest;
    JoinedSlices(p, sep, rest);
    JoinedBreak(p, sep, rest);
  }

  lemma JoinedSlices(p: string, sep: string, rest: string)
    ensures var s := p + sep + rest;
            s[..|p|] == p && s[|p|..] == sep + rest && s[|p| + |sep|..] == rest
  {
  }

  /** The first break of a row, a separator and more text is the
      separator, read at its own width. */
  lemma JoinedBreak(p: string, sep: string, rest: string)
    requires NoLineBreak(p)
    requires IsLineSeparator(sep)
    requires sep == "\r" && |rest| > 0 ==> rest[0] != '\n'
    ensures var s := p + sep + rest;
            FindBreak(s) == |p| < |s| && BreakWidth(s, |p|) == |sep|
  {
    var s := p + sep + rest;
    assert s == p + (sep + rest);
    assert (sep + rest)[0] == sep[0];
    FindBreakAfter(p, sep + rest);
    JoinedSlices(p, sep, rest);
    SeparatorWidth(s, |p|, sep, rest);
  }

  /** A separator in front of text that cannot extend it is read as one
      break of its own length. */
  lemma SeparatorWidth(s: string, k: nat, sep: string, rest: string)
    requires k <= |s| && s[k..] == sep + rest
    requires IsLineSeparator(sep)
    requires sep == "\r" && |rest| > 0 ==> rest[0] != '\n'
    ensures k < |s| && BreakWidth(s, k) == |sep|
  {
    assert s[k] == (sep + rest)[0];
    if sep == "\r" && k + 1 < |s| {
      assert s[k + 1] == (sep + rest)[1] == rest[0];
    }
  }

  /** Text joined with "\r" never starts with "\n", so a "\r" separator
      in front of it is not read as "\r\n". */
  lemma JoinNoLeadingLF(rows: seq<string>)
    requires forall i :: 0 <= i < |rows| ==> NoLineBreak(rows[i])
    ensures var j := JoinWith(rows, "\r"); |j| > 0 ==> j[0] != '\n'
  {
    if |rows| > 1 {
      var j := JoinWith(rows, "\r");
      assert j == rows[0] + "\r" + JoinWith(rows[1..], "\r");
      if |rows[0]| > 0 {
        assert j[0] == rows[0][0];
      } else {
        assert j[0] == '\r';
      }
    } else if |rows| == 1 && |rows[0]| > 0 {
      assert !IsLineBreak(rows[0][0]);
    }
  }

  lemma FindBreakAbsent(s: string)
    requires NoLineBreak(s)
    ensures FindBreak(s) == |s|
  {
  }

  lemma FindBreakAfter(p: string, rest: string)
    requires NoLineBreak(p)
    requires |rest| > 0 && IsLineBreak(rest[0])
    ensures FindBreak(p + rest) == |p|
  {
    var s := p + rest;
    assert s[|p|] == rest[0];
    assert forall i :: 0 <= i < |p| ==> s[i] == p[i];
  }

  /** The characters JavaScript's `trim` removes: white space (including
      every space separator of Unicode) and line terminators. */
  predicate IsWhitespace(c: char) {
    || c == '\t' || c == '\n' || c == '\U{B}' || c == '\U{C}' || c == '\r' || c == ' '
    || c == '\U{A0}' || c == '\U{1680}' || ('\U{2000}' <= c <= '\U{200A}')
    || c == '\U{2028}' || c == '\U{2029}' || c == '\U{202F}' || c == '\U{205F}'
    || c == '\U{3000}' || c == '\U{FEFF}'
  }

  /** `row.trim().length == 0`. */
  predicate IsBlank(row: string) {
    forall i :: 0 <= i < |row| ==> IsWhitespace(row[i])
  }

  /** `rows.filter(row => row.trim().length > 0)`. */
  function NonBlankRows(rows: seq<string>): (r: seq<string>)
    ensures |r| <= |rows|
    ensures forall i :: 0 <= i < |r| ==> !IsBlank(r[i]) && r[i] in rows
    decreases |rows|
  {
    if |rows| == 0 then []
    else
      var rest := NonBlankRows(rows[1..]);
      if IsBlank(rows[0]) then rest else [rows[0]] + rest
  }

  /** Filtering keeps rows in order: it distributes over concatenation. */
  lemma {:induction false} NonBlankRowsAppend(a: seq<string>, b: seq<string>)
    ensures NonBlankRows(a + b) == NonBlankRows(a) + NonBlankRows(b)
    decreases |a|
  {
    if |a| > 0 {
      assert (a + b)[0] == a[0];
      assert (a + b)[1..] == a[1..] + b;
      NonBlankRowsAppend(a[1..], b);
    } else {
      assert a + b == b;
    }
  }

  /** Rows that are all non-blank pass the filter unchanged. */
  lemma {:induction false} NonBlankRowsKeeps(rows: seq<string>)
    requires forall i :: 0 <= i < |rows| ==> !IsBlank(rows[i])
    ensures NonBlankRows(rows) == rows
    decreases |rows|
  {
    if |rows| > 0 {
      NonBlankRowsKeeps(rows[1..]);
    }
  }
}
