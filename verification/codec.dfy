/**
 * The intermediate text format of the line-oriented scripts: one
 * "{number} {count}\n" line per table item, written in the table's order.
 * Readers strip each line, split it on whitespace, keep it only when it has
 * exactly two fields that int() accepts, and skip it otherwise.
 */
module Codec {
  import opened Wrappers
  import opened Seqs
  import opened PyText
  import opened Tables

  /** The line written for one item. */
  function FormatLine(e: Entry): (l: string)
    ensures IsLine(l)
  {
    var a := IntToString(e.key);
    var b := IntToString(e.count);
    var l := a + " " + b + "\n";
    assert forall i :: 0 <= i < |l| - 1 ==> l[i] != '\n' by {
      forall i | 0 <= i < |l| - 1 ensures l[i] != '\n' {
        if i < |a| {
          assert l[i] == a[i];
        } else if i > |a| {
          assert l[i] == b[i - |a| - 1];
        }
      }
    }
    l
  }

  /** The lines written for a table, one per item in order. */
  function FormatLines(t: Table): (ls: seq<string>)
    ensures |ls| == |t|
    ensures forall i :: 0 <= i < |ls| ==> ls[i] == FormatLine(t[i])
  {
    seq(|t|, i requires 0 <= i < |t| => FormatLine(t[i]))
  }

  /** The text of an intermediate file holding table t. */
  function Serialize(t: Table): string
  {
    Flatten(FormatLines(t))
  }

  /** The two fields of a line the reader keeps: exactly two
      whitespace-separated fields, each accepted by int(). */
  predicate TwoIntFields(parts: seq<string>)
  {
    |parts| == 2 && ParseInt(parts[0]).Some? && ParseInt(parts[1]).Some?
  }

  /** One line read back: Some item when the stripped line has two integer
      fields; None where the script skips the line. */
  function ParseLine(line: string): Option<Entry>
  {
    var parts := Split(Strip(line));
    if TwoIntFields(parts) then Some(Entry(ParseInt(parts[0]).value, ParseInt(parts[1]).value))
    else None
  }

  /** The items read from a sequence of lines, in order, skipped lines
      contributing nothing. */
  function ParseLines(ls: seq<string>): seq<Entry>
  {
    Present(Map(ParseLine, ls))
  }

  /** The items read from a whole intermediate file. */
  function Parse(content: string): seq<Entry>
  {
    ParseLines(Lines(content))
  }

  /** Reading a file line by line: the items of its first lines followed
      by the items of the rest. */
  lemma ParseLinesAppend(a: seq<string>, b: seq<string>)
    ensures ParseLines(a + b) == ParseLines(a) + ParseLines(b)
  {
    MapAppend(ParseLine, a, b);
    PresentAppend(Map(ParseLine, a), Map(ParseLine, b));
  }

  /** A line that is not exactly two integer fields is skipped: it adds
      nothing to what the rest of the file yields, and does not stop the
      reading of the lines after it. */
  lemma MalformedLineSkipped(line: string, rest: seq<string>)
    requires !TwoIntFields(Split(Strip(line)))
    ensures ParseLines([line] + rest) == ParseLines(rest)
  {
    ParseLinesAppend([line], rest);
    assert ParseLines([line]) == [];
  }

  lemma {:induction false} TrimEndNewline(w: string)
    requires |w| > 0 && !IsSpace(w[|w| - 1])
    ensures TrimEnd(w + "\n") == w
  {
    var s := w + "\n";
    assert s[..|s| - 1] == w;
  }

  /** Stripping a written line leaves the two fields and the space between
      them. */
  lemma StripFormattedLine(a: string, b: string)
    requires |a| > 0 && NoSpace(a) && |b| > 0 && NoSpace(b)
    ensures Strip(a + " " + b + "\n") == a + " " + b
  {
    var w := a + " " + b;
    assert w[|w| - 1] == b[|b| - 1];
    assert w + "\n" == a + " " + b + "\n";
    assert TrimStart(w + "\n") == w + "\n" by {
      assert (w + "\n")[0] == a[0];
    }
    TrimEndNewline(w);
  }

  /** Two fields int() accepts, written with one space between them and a
      newline after, read back as the item of those two values. */
  lemma ParseTwoFields(a: string, b: string, k: int, c: int)
    requires |a| > 0 && NoSpace(a) && |b| > 0 && NoSpace(b)
    requires ParseInt(a) == Some(k) && ParseInt(b) == Some(c)
    ensures ParseLine(a + " " + b + "\n") == Some(Entry(k, c))
  {
    StripFormattedLine(a, b);
    SplitTwoWords(a, b);
    var parts := Split(Strip(a + " " + b + "\n"));
    assert parts == [a, b];
    assert TwoIntFields(parts);
  }

  /** Every written line reads back as the item it was written for. */
  lemma ParseFormattedLine(e: Entry)
    ensures ParseLine(FormatLine(e)) == Some(e)
  {
    var a := IntToString(e.key);
    var b := IntToString(e.count);
    assert FormatLine(e) == a + " " + b + "\n";
    ParseTwoFields(a, b, e.key, e.count);
  }

  lemma ParseFormattedLines(t: Table)
    ensures ParseLines(FormatLines(t)) == t
  {
    var ls := FormatLines(t);
    forall i | 0 <= i < |ls| ensures ParseLine(ls[i]) == Some(t[i]) {
      ParseFormattedLine(t[i]);
    }
    PresentAll(Map(ParseLine, ls), t);
  }

  /** The serialise/parse round trip: reading an intermediate file back
      yields exactly the items written, in the order written. */
  lemma RoundTrip(t: Table)
    ensures Parse(Serialize(t)) == t
  {
    var ls := FormatLines(t);
    assert forall i :: 0 <= i < |ls| ==> IsLine(ls[i]);
    LinesOfWrittenLines(ls);
    ParseFormattedLines(t);
  }
}
