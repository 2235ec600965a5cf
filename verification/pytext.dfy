/**
 * The Python text built-ins the scripts lean on: iterating a text file line
 * by line, str.strip(), str.split(), str.isdigit(), int() and str() on
 * integers. Text is a sequence of characters restricted to ASCII behaviour:
 * the whitespace and digit classes are the ASCII members of Python's.
 */
module PyText {
  import opened Wrappers
  import opened Seqs

  /** The ASCII characters for which str.isspace() holds: space, \t, \n,
      \v, \f, \r and the four separators 0x1C to 0x1F. */
  predicate IsSpace(c: char)
  {
    c == ' ' || ('\U{0009}' <= c <= '\U{000D}') || ('\U{001C}' <= c <= '\U{001F}')
  }

  predicate NoSpace(s: string)
  {
    forall i :: 0 <= i < |s| ==> !IsSpace(s[i])
  }

  // ---------------------------------------------------------------------
  // Line iteration
  // ---------------------------------------------------------------------

  /** A complete line: it ends with its only newline. */
  predicate IsLine(l: string)
  {
    |l| > 0 && l[|l| - 1] == '\n' && forall i :: 0 <= i < |l| - 1 ==> l[i] != '\n'
  }

  /** Length of the first line of s, its terminating newline included. */
  function LineLen(s: string): (n: nat)
    requires |s| > 0
    ensures 0 < n <= |s|
    ensures forall i :: 0 <= i < n - 1 ==> s[i] != '\n'
    ensures n < |s| ==> s[n - 1] == '\n'
  {
    if s[0] == '\n' || |s| == 1 then 1 else 1 + LineLen(s[1..])
  }

  /** The lines `for line in f` yields for a text file whose content is s:
      each keeps its newline, and a last line without one is yielded too. */
  function Lines(s: string): (ls: seq<string>)
    ensures Flatten(ls) == s
    ensures forall l :: l in ls ==> |l| > 0
    decreases |s|
  {
    if |s| == 0 then []
    else
      var n := LineLen(s);
      var rest := Lines(s[n..]);
      var ls := [s[..n]] + rest;
      assert ls[0] == s[..n] && ls[1..] == rest;
      assert Flatten(ls) == s[..n] + Flatten(rest);
      assert s[..n] + s[n..] == s;
      assert forall l :: l in ls ==> l == s[..n] || l in rest;
      ls
  }

  lemma {:induction false} LineLenOfLine(l: string, rest: string)
    requires IsLine(l)
    ensures LineLen(l + rest) == |l|
    decreases |l|
  {
    if |l| > 1 {
      assert (l + rest)[1..] == l[1..] + rest;
      LineLenOfLine(l[1..], rest);
    }
  }

  /** Writing complete lines one after another and reading the file back
      line by line yields exactly the lines written. */
  lemma {:induction false} LinesOfWrittenLines(ls: seq<string>)
    requires forall i :: 0 <= i < |ls| ==> IsLine(ls[i])
    ensures Lines(Flatten(ls)) == ls
  {
    if |ls| > 0 {
      var s := Flatten(ls);
      assert s == ls[0] + Flatten(ls[1..]);
      LineLenOfLine(ls[0], Flatten(ls[1..]));
      assert s[..|ls[0]|] == ls[0];
      assert s[|ls[0]|..] == Flatten(ls[1..]);
      LinesOfWrittenLines(ls[1..]);
    }
  }

  // ---------------------------------------------------------------------
  // strip() and split()
  // ---------------------------------------------------------------------

  function TrimStart(s: string): (r: string)
    ensures |r| <= |s|
    ensures |r| == 0 || !IsSpace(r[0])
  {
    if |s| > 0 && IsSpace(s[0]) then TrimStart(s[1..]) else s
  }

  function TrimEnd(s: string): (r: string)
    ensures |r| <= |s|
  {
    if |s| > 0 && IsSpace(s[|s| - 1]) then TrimEnd(s[..|s| - 1]) else s
  }

  /** str.strip() with no argument: s without its leading and trailing
      whitespace. */
  function Strip(s: string): string
  {
    TrimEnd(TrimStart(s))
  }

  lemma {:induction false} TrimStartSpec(s: string)
    ensures var r := TrimStart(s);
      r == s[|s| - |r|..] && forall i :: 0 <= i < |s| - |r| ==> IsSpace(s[i])
    decreases |s|
  {
    if |s| > 0 && IsSpace(s[0]) {
      TrimStartSpec(s[1..]);
    }
  }

  lemma {:induction false} TrimEndSpec(s: string)
    ensures var r := TrimEnd(s);
      r == s[..|r|] && (|r| == 0 || !IsSpace(r[|r| - 1]))
      && forall i :: |r| <= i < |s| ==> IsSpace(s[i])
    decreases |s|
  {
    if |s| > 0 && IsSpace(s[|s| - 1]) {
      TrimEndSpec(s[..|s| - 1]);
    }
  }

  /** strip() removes exactly the surrounding whitespace: what is left is
      the piece of s from the first to the last non-whitespace character,
      and everything before and after that piece is whitespace. */
  lemma StripSpec(s: string)
    ensures var lo := |s| - |TrimStart(s)|; var r := Strip(s);
      lo + |r| <= |s| && r == s[lo..lo + |r|]
      && (forall i :: 0 <= i < lo ==> IsSpace(s[i]))
      && (forall i :: lo + |r| <= i < |s| ==> IsSpace(s[i]))
      && (|r| == 0 || (!IsSpace(r[0]) && !IsSpace(r[|r| - 1])))
  {
    var t := TrimStart(s);
    var r := Strip(s);
    var lo := |s| - |t|;
    assert t == s[lo..] && forall i :: 0 <= i < lo ==> IsSpace(s[i]) by {
      TrimStartSpec(s);
    }
    assert r == t[..|r|] && (|r| == 0 || !IsSpace(r[|r| - 1])) && forall i :: |r| <= i < |t| ==> IsSpace(t[i]) by {
      TrimEndSpec(t);
    }
    assert r == s[lo..lo + |r|];
    forall i | lo + |r| <= i < |s| ensures IsSpace(s[i]) {
      assert s[i] == t[i - lo];
    }
    if |r| > 0 {
      assert r[0] == t[0];
    }
  }

  /** Length of the leading run of non-whitespace characters. */
  function WordLen(s: string): (n: nat)
    ensures n <= |s|
    ensures forall i :: 0 <= i < n ==> !IsSpace(s[i])
    ensures n < |s| ==> IsSpace(s[n])
  {
    if |s| == 0 || IsSpace(s[0]) then 0 else 1 + WordLen(s[1..])
  }

  /** str.split() with no argument: the maximal runs of non-whitespace
      characters, in order. */
  function Split(s: string): (ws: seq<string>)
    ensures forall w :: w in ws ==> |w| > 0 && NoSpace(w)
    decreases |s|
  {
    var t := TrimStart(s);
    if |t| == 0 then []
    else
      var n := WordLen(t);
      [t[..n]] + Split(t[n..])
  }

  lemma {:induction false} WordLenOfWord(w: string, rest: string)
    requires NoSpace(w)
    requires |rest| == 0 || IsSpace(rest[0])
    ensures WordLen(w + rest) == |w|
    decreases |w|
  {
    if |w| > 0 {
      assert (w + rest)[1..] == w[1..] + rest;
      WordLenOfWord(w[1..], rest);
    }
  }

  /** A word followed by whitespace (or by nothing) splits off as the first
      field. */
  lemma SplitWordThen(w: string, rest: string)
    requires |w| > 0 && NoSpace(w)
    requires |rest| == 0 || IsSpace(rest[0])
    ensures Split(w + rest) == [w] + Split(rest)
  {
    var s := w + rest;
    assert TrimStart(s) == s;
    WordLenOfWord(w, rest);
    assert s[..|w|] == w;
    assert s[|w|..] == rest;
  }

  /** Leading whitespace never produces a field. */
  lemma SplitSkipsSpace(c: char, s: string)
    requires IsSpace(c)
    ensures Split([c] + s) == Split(s)
  {
    assert ([c] + s)[1..] == s;
    assert TrimStart([c] + s) == TrimStart(s);
  }

  lemma SplitOneWord(w: string)
    requires |w| > 0 && NoSpace(w)
    ensures Split(w) == [w]
  {
    SplitWordThen(w, []);
    assert w + [] == w;
  }

  /** Two words with one space between them split into those two words. */
  lemma SplitTwoWords(a: string, b: string)
    requires |a| > 0 && NoSpace(a) && |b| > 0 && NoSpace(b)
    ensures Split(a + " " + b) == [a, b]
  {
    assert a + " " + b == a + ([' '] + b);
    SplitWordThen(a, [' '] + b);
    SplitSkipsSpace(' ', b);
    SplitOneWord(b);
  }

  // ---------------------------------------------------------------------
  // Digits and integers
  // ---------------------------------------------------------------------

  predicate IsDigit(c: char)
  {
    '0' <= c <= '9'
  }

  predicate AllDigits(s: string)
  {
    forall i :: 0 <= i < |s| ==> IsDigit(s[i])
  }

  /** str.isdigit(): non-empty and made of decimal digits only. */
  predicate IsDigits(s: string)
  {
    |s| > 0 && AllDigits(s)
  }

  /** The value of a string of decimal digits, most significant first. */
  function DigitsValue(s: string): nat
    requires AllDigits(s)
  {
    if |s| == 0 then 0
    else 10 * DigitsValue(s[..|s| - 1]) + (s[|s| - 1] as int - '0' as int)
  }

  function DigitChar(d: nat): (c: char)
    requires d < 10
    ensures IsDigit(c) && c as int - '0' as int == d
  {
    ('0' as int + d) as char
  }

  /** int(s) for an s that carries no surrounding whitespace: an optional
      sign followed by one or more decimal digits. None stands for the
      ValueError raised on anything else. */
  function ParseInt(s: string): (r: Option<int>)
    ensures IsDigits(s) ==> r == Some(DigitsValue(s))
    ensures r.Some? ==> |s| > 0
  {
    if |s| > 0 && (s[0] == '+' || s[0] == '-') then
      if IsDigits(s[1..]) then
        var v: int := DigitsValue(s[1..]);
        Some(if s[0] == '-' then -v else v)
      else None
    else if IsDigits(s) then Some(DigitsValue(s))
    else None
  }

  /** str(n) for a natural number: its shortest decimal digit string. */
  function NatToDigits(n: nat): (s: string)
    ensures IsDigits(s) && DigitsValue(s) == n
    decreases n
  {
    if n < 10 then [DigitChar(n)]
    else
      var s := NatToDigits(n / 10) + [DigitChar(n % 10)];
      assert s[..|s| - 1] == NatToDigits(n / 10);
      s
  }

  /** str(n) for an integer: a minus sign before the digits of a negative
      value. int() reads back exactly the value written. */
  function IntToString(n: int): (s: string)
    ensures |s| > 0 && NoSpace(s)
    ensures forall i :: 0 <= i < |s| ==> s[i] != '\n'
    ensures ParseInt(s) == Some(n)
  {
    if n < 0 then
      var s := "-" + NatToDigits(-n);
      assert s[1..] == NatToDigits(-n);
      s
    else NatToDigits(n)
  }

  /** Leading zeros do not change the value of a digit string, so "007" and
      "7" stand for the same integer. */
  lemma {:induction false} LeadingZeroIgnored(s: string)
    requires AllDigits(s)
    ensures AllDigits("0" + s) && DigitsValue("0" + s) == DigitsValue(s)
    decreases |s|
  {
    var z := "0" + s;
    assert AllDigits(z) by {
      forall i | 0 <= i < |z| ensures IsDigit(z[i]) {
        if i > 0 { assert z[i] == s[i - 1]; }
      }
    }
    if |s| > 0 {
      var p := s[..|s| - 1];
      LeadingZeroIgnored(p);
      assert z[..|z| - 1] == "0" + p;
    }
  }
}
