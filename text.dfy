/**
 * The text pieces of the failure report: the decimal rendering of the count
 * ("%d"), joining lines with "\n" (Collectors.joining), and a reader that
 * splits a text back into its lines, used to state what the report contains.
 */
module Text {

  predicate IsDigit(c: char) {
    '0' <= c <= '9'
  }

  predicate NoNewline(s: string) {
    '\n' !in s
  }

  function DigitChar(d: nat): (c: char)
    requires d < 10
    ensures IsDigit(c) && DigitValue(c) == d
  {
    ('0' as int + d) as char
  }

  function DigitValue(c: char): (d: nat)
    requires IsDigit(c)
    ensures d < 10
  {
    c as int - '0' as int
  }

  /** The decimal numeral of n, without leading zeros. */
  function DecimalString(n: nat): (s: string)
    ensures |s| > 0
    ensures forall i :: 0 <= i < |s| ==> IsDigit(s[i])
    ensures s[0] == '0' ==> n == 0
    decreases n
  {
    if n < 10 then [DigitChar(n)] else DecimalString(n / 10) + [DigitChar(n % 10)]
  }

  /** The number a numeral denotes, read independently of how it was written. */
  function DigitsValue(s: string): nat
    requires forall i :: 0 <= i < |s| ==> IsDigit(s[i])
    decreases |s|
  {
    if s == [] then 0 else DigitsValue(s[..|s| - 1]) * 10 + DigitValue(s[|s| - 1])
  }

  lemma {:induction false} DecimalStringRoundTrip(n: nat)
    ensures DigitsValue(DecimalString(n)) == n
    decreases n
  {
    if n >= 10 {
      DecimalStringRoundTrip(n / 10);
      var s := DecimalString(n);
      assert s[..|s| - 1] == DecimalString(n / 10);
    }
  }

  /** The lines joined with "\n" between consecutive ones. */
  function JoinLines(lines: seq<string>): string
    decreases |lines|
  {
    if |lines| == 0 then ""
    else if |lines| == 1 then lines[0]
    else lines[0] + "\n" + JoinLines(lines[1..])
  }

  /** The lines of a text: the pieces between its "\n" characters. */
  function SplitLines(s: string): (r: seq<string>)
    ensures |r| > 0
    decreases |s|
  {
    if |s| == 0 then [""]
    else
      var rest := SplitLines(s[1..]);
      if s[0] == '\n' then [""] + rest else [[s[0]] + rest[0]] + rest[1..]
  }

  lemma {:induction false} SplitLinesAtNewline(x: string, y: string)
    ensures SplitLines(x + "\n" + y) == SplitLines(x) + SplitLines(y)
    decreases |x|
  {
    if |x| == 0 {
      assert x + "\n" + y == ['\n'] + y;
      assert (['\n'] + y)[1..] == y;
    } else {
      assert (x + "\n" + y)[1..] == x[1..] + "\n" + y;
      SplitLinesAtNewline(x[1..], y);
    }
  }

  lemma {:induction false} SplitLinesSingle(x: string)
    requires NoNewline(x)
    ensures SplitLines(x) == [x]
    decreases |x|
  {
    if |x| > 0 {
      assert x[1..] == x[1..] && NoNewline(x[1..]) by {
        forall i | 0 <= i < |x[1..]| ensures x[1..][i] != '\n' {
          assert x[1..][i] == x[i + 1];
        }
      }
      SplitLinesSingle(x[1..]);
      assert x == [x[0]] + x[1..];
    }
  }

  /** Splitting joined lines gives the lines back, when none of them holds a "\n". */
  lemma {:induction false} SplitJoinLines(lines: seq<string>)
    requires lines != []
    requires forall i :: 0 <= i < |lines| ==> NoNewline(lines[i])
    ensures SplitLines(JoinLines(lines)) == lines
    decreases |lines|
  {
    SplitLinesSingle(lines[0]);
    if |lines| > 1 {
      SplitLinesAtNewline(lines[0], JoinLines(lines[1..]));
      SplitJoinLines(lines[1..]);
      assert lines == [lines[0]] + lines[1..];
    }
  }

  /** A header and a footer around joined lines read back as header, lines and footer. */
  lemma {:induction false} SplitFramedLines(header: string, lines: seq<string>, footer: string)
    requires NoNewline(header) && NoNewline(footer) && lines != []
    requires forall i :: 0 <= i < |lines| ==> NoNewline(lines[i])
    ensures SplitLines(header + "\n" + JoinLines(lines) + "\n" + footer) == [header] + lines + [footer]
  {
    SplitLinesAtNewline(header + "\n" + JoinLines(lines), footer);
    SplitLinesAtNewline(header, JoinLines(lines));
    SplitLinesSingle(header);
    SplitLinesSingle(footer);
    SplitJoinLines(lines);
  }
}
