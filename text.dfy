/**
  String helpers shared by the components: Python's `str.startswith`,
  `str.endswith`, `<` on `str`, `str(int)` and `"\n".join`.
  A Python `str` is modelled as `seq<char>`, one char per code point.
 */
module Text {

  /** Python's `s.startswith(p)`. */
  predicate StartsWith(s: string, p: string)
  {
    |p| <= |s| && s[..|p|] == p
  }

  /** Python's `s.endswith(p)`. */
  predicate EndsWith(s: string, p: string)
  {
    |p| <= |s| && s[|s| - |p|..] == p
  }

  /** Python's `a < b` on `str`: lexicographic on code points, a proper prefix first. */
  predicate StrLess(a: string, b: string): (less: bool)
    ensures less ==> a != b
    decreases |a|
  {
    if a == [] then b != []
    else if b == [] then false
    else if a[0] != b[0] then a[0] < b[0]
    else StrLess(a[1..], b[1..])
  }

  lemma {:induction false} StrLessIrreflexive(a: string)
    ensures !StrLess(a, a)
    decreases |a|
  {
    if a != [] {
      StrLessIrreflexive(a[1..]);
    }
  }

  lemma {:induction false} StrLessTransitive(a: string, b: string, c: string)
    requires StrLess(a, b) && StrLess(b, c)
    ensures StrLess(a, c)
    decreases |a|
  {
    if a != [] && a[0] == b[0] && b[0] == c[0] {
      StrLessTransitive(a[1..], b[1..], c[1..]);
    }
  }

  /** Distinct strings are always ordered one way or the other. */
  lemma {:induction false} StrLessTotal(a: string, b: string)
    requires a != b
    ensures StrLess(a, b) || StrLess(b, a)
    decreases |a|
  {
    if a != [] && b != [] && a[0] == b[0] {
      assert a == [a[0]] + a[1..] && b == [b[0]] + b[1..];
      StrLessTotal(a[1..], b[1..]);
    }
  }

  function DigitChar(d: nat): (c: char)
    requires d < 10
    ensures '0' <= c <= '9' && (c as int) - ('0' as int) == d
  {
    "0123456789"[d]
  }

  predicate IsDecimal(s: string)
  {
    forall i :: 0 <= i < |s| ==> '0' <= s[i] <= '9'
  }

  /** The value of a string of decimal digits. */
  function DecimalValue(s: string): nat
    requires IsDecimal(s)
  {
    if s == [] then 0
    else DecimalValue(s[..|s| - 1]) * 10 + ((s[|s| - 1] as int) - ('0' as int))
  }

  /** Python's `str(n)` for a non-negative `int` (what an f-string prints). */
  function NatToString(n: nat): (s: string)
    ensures |s| >= 1 && IsDecimal(s)
    ensures |s| > 1 ==> s[0] != '0'
    decreases n
  {
    if n < 10 then [DigitChar(n)] else NatToString(n / 10) + [DigitChar(n % 10)]
  }

  /** `str(n)` is read back as `n`. */
  lemma {:induction false} NatToStringRoundTrip(n: nat)
    ensures DecimalValue(NatToString(n)) == n
    decreases n
  {
    var s := NatToString(n);
    if n >= 10 {
      NatToStringRoundTrip(n / 10);
      assert s[..|s| - 1] == NatToString(n / 10);
    }
  }

  /** A string `str(n)` can print: non-empty decimal digits without a leading zero. */
  predicate Canonical(s: string)
  {
    |s| >= 1 && IsDecimal(s) && (|s| > 1 ==> s[0] != '0')
  }

  /** Digits that do not start with `0` have a positive value. */
  lemma {:induction false} LeadingDigitPositive(s: string)
    requires |s| >= 1 && IsDecimal(s) && s[0] != '0'
    ensures DecimalValue(s) >= 1
    decreases |s|
  {
    if |s| > 1 {
      LeadingDigitPositive(s[..|s| - 1]);
    }
  }

  /** The canonical digits of a number are unique: `str` is the only way to print it. */
  lemma {:induction false} CanonicalIsNatToString(s: string)
    requires Canonical(s)
    ensures NatToString(DecimalValue(s)) == s
    decreases |s|
  {
    var n := DecimalValue(s);
    var last := s[|s| - 1];
    if |s| > 1 {
      var init := s[..|s| - 1];
      LeadingDigitPositive(init);
      CanonicalIsNatToString(init);
      assert n / 10 == DecimalValue(init) && n % 10 == (last as int) - ('0' as int);
      assert DigitChar(n % 10) == last;
      assert s == init + [last];
    } else {
      assert s[..0] == [] && DecimalValue(s[..0]) == 0;
      assert n == (last as int) - ('0' as int);
      assert DigitChar(n) == last;
      assert s == [last];
    }
  }

  /** `"\n".join(lines)`. */
  function JoinLines(lines: seq<string>): (text: string)
    ensures lines != [] ==> StartsWith(text, lines[0])
    ensures |lines| > 1 ==> |text| > |lines[0]| && text[|lines[0]|] == '\n'
  {
    if |lines| == 0 then ""
    else if |lines| == 1 then lines[0]
    else lines[0] + "\n" + JoinLines(lines[1..])
  }

  /** Every line followed by its own newline. */
  function Terminated(lines: seq<string>): string
  {
    if lines == [] then "" else lines[0] + "\n" + Terminated(lines[1..])
  }

  predicate NoNewline(line: string)
  {
    forall i :: 0 <= i < |line| ==> line[i] != '\n'
  }

  /** A concatenation holds a newline exactly when one of its parts does. */
  lemma NoNewlineAppend(a: string, b: string)
    ensures NoNewline(a + b) <==> NoNewline(a) && NoNewline(b)
  {
    if NoNewline(a + b) {
      forall i | 0 <= i < |b|
        ensures b[i] != '\n'
      {
        assert (a + b)[|a| + i] == b[i];
      }
      forall i | 0 <= i < |a|
        ensures a[i] != '\n'
      {
        assert (a + b)[i] == a[i];
      }
    }
    if NoNewline(a) && NoNewline(b) {
      forall i | 0 <= i < |a + b|
        ensures (a + b)[i] != '\n'
      {
        if i < |a| { assert (a + b)[i] == a[i]; } else { assert (a + b)[i] == b[i - |a|]; }
      }
    }
  }

  /** `"\n".join(lines) + "\n"` terminates every line, so the text ends with a newline. */
  lemma {:induction false} JoinThenNewline(lines: seq<string>)
    requires lines != []
    ensures JoinLines(lines) + "\n" == Terminated(lines)
    ensures EndsWith(Terminated(lines), "\n")
  {
    if |lines| > 1 {
      JoinThenNewline(lines[1..]);
      assert JoinLines(lines) + "\n" == lines[0] + "\n" + (JoinLines(lines[1..]) + "\n");
    }
    var t := Terminated(lines);
    assert t == lines[0] + "\n" + Terminated(lines[1..]);
    if lines[1..] != [] {
      JoinThenNewline(lines[1..]);
    }
  }

  lemma NewlineComesFirst(x: string, r: string, y: string, r': string)
    requires NoNewline(y) && |x| < |y|
    ensures x + "\n" + r != y + "\n" + r'
  {
    assert (x + "\n" + r)[|x|] == '\n';
    assert (y + "\n" + r')[|x|] == y[|x|];
  }

  lemma FirstLineDetermined(x: string, y: string, r: string, r': string)
    requires NoNewline(x) && NoNewline(y)
    requires x + "\n" + r == y + "\n" + r'
    ensures x == y && r == r'
  {
    var t := x + "\n" + r;
    if |x| < |y| {
      NewlineComesFirst(x, r, y, r');
      assert false;
    } else if |y| < |x| {
      NewlineComesFirst(y, r', x, r);
      assert false;
    }
    assert x == t[..|x|] == y;
    assert r == t[|x| + 1..] == r';
  }

  /** Terminated lines without newlines of their own can be read back: the rendering is injective. */
  lemma {:induction false} TerminatedInjective(a: seq<string>, b: seq<string>)
    requires forall i :: 0 <= i < |a| ==> NoNewline(a[i])
    requires forall i :: 0 <= i < |b| ==> NoNewline(b[i])
    requires Terminated(a) == Terminated(b)
    ensures a == b
  {
    if a == [] || b == [] {
    } else {
      FirstLineDetermined(a[0], b[0], Terminated(a[1..]), Terminated(b[1..]));
      TerminatedInjective(a[1..], b[1..]);
      assert a == [a[0]] + a[1..] && b == [b[0]] + b[1..];
    }
  }

  /** No line of `lines` contains a newline. */
  predicate LinesWithoutNewline(lines: seq<string>)
  {
    forall i :: 0 <= i < |lines| ==> NoNewline(lines[i])
  }

  /** Appending newline-free line lists keeps every line newline-free. */
  lemma LinesWithoutNewlineAppend(a: seq<string>, b: seq<string>)
    ensures LinesWithoutNewline(a) && LinesWithoutNewline(b) ==> LinesWithoutNewline(a + b)
  {
    if LinesWithoutNewline(a) && LinesWithoutNewline(b) {
      forall i | 0 <= i < |a + b|
        ensures NoNewline((a + b)[i])
      {
        if i >= |a| {
          assert (a + b)[i] == b[i - |a|];
        }
      }
    }
  }
}
