/**
 * count_integers.py: one mapper task per input file counts the tokens of
 * the file that are non-negative decimal integers, and one reducer merges
 * every mapper's counts, ranks the six most common integers and reports how
 * many mapper outputs it read and how many integers they counted in all.
 *
 * A file is its text, or None when it does not exist; a mapper output is
 * the table it holds (the JSON encoding is not modelled).
 */
module CountIntegers {
  import opened Wrappers
  import opened Seqs
  import opened PyText
  import opened Tables
  import opened Ranking

  /** How many integers the report ranks. */
  const TOP: nat := 6

  // ---------------------------------------------------------------------
  // Command line
  // ---------------------------------------------------------------------

  datatype Phase = MapperPhase | ReducerPhase

  /** The phase named by the single argument, or exit status 1 on any other
      command line. */
  function ParsePhase(args: seq<string>): (r: Result<Phase, int>)
    ensures r.Success? <==> |args| == 2 && (args[1] == "mapper" || args[1] == "reducer")
    ensures r.Success? ==> (r.value == MapperPhase <==> args[1] == "mapper")
    ensures r.Failure? ==> r.error == 1
  {
    if |args| != 2 then Failure(1)
    else if args[1] == "mapper" then Success(MapperPhase)
    else if args[1] == "reducer" then Success(ReducerPhase)
    else Failure(1)
  }

  // ---------------------------------------------------------------------
  // Mapper
  // ---------------------------------------------------------------------

  /** The value a token contributes: int(tok) for a token of decimal
      digits, nothing for any other token (a sign, a point or a letter
      makes str.isdigit() false). */
  function DigitValue(tok: string): (r: Option<int>)
    ensures r.Some? <==> IsDigits(tok)
    ensures r.Some? ==> r.value >= 0 && r == ParseInt(tok)
  {
    if IsDigits(tok) then Some(DigitsValue(tok)) else None
  }

  /** The values counted from a sequence of tokens, in order. */
  function TokenValues(tokens: seq<string>): seq<int>
  {
    Present(Map(DigitValue, tokens))
  }

  /** The Counter built from a file's whitespace-separated tokens. */
  function CountTokens(tokens: seq<string>): (t: Table)
    ensures forall k :: Get(t, k) == multiset(Map(DigitValue, tokens))[Some(k)]
    ensures forall k :: Get(t, k) == multiset(TokenValues(tokens))[k]
    ensures forall k :: k < 0 ==> Get(t, k) == 0
    ensures DistinctKeys(t) && Positive(t)
    ensures Sum(t) == |TokenValues(tokens)|
  {
    var vals := TokenValues(tokens);
    var t := Tally(vals);
    forall k ensures Get(t, k) == multiset(Map(DigitValue, tokens))[Some(k)] {
      PresentCount(Map(DigitValue, tokens), k);
    }
    forall k | k < 0 ensures Get(t, k) == 0 {
      assert Some(k) !in Map(DigitValue, tokens);
    }
    t
  }

  /** One mapper task: the counts of a file's digit tokens, or None (the
      empty output path) when the file does not exist. An existing file
      gives a table that holds each integer once, with the number of its
      digit tokens as count, and whose counts add up to the number of digit
      tokens. */
  function MapperTask(file: Option<string>): (r: Option<Table>)
    ensures r.None? <==> file.None?
    ensures r.Some? ==> forall k :: Get(r.value, k) == multiset(TokenValues(Split(file.value)))[k]
    ensures r.Some? ==> Sum(r.value) == |TokenValues(Split(file.value))|
    ensures r.Some? ==> DistinctKeys(r.value) && Positive(r.value)
  {
    match file
    case None => None
    case Some(content) => Some(CountTokens(Split(content)))
  }

  /** The mapper phase: one task per input file; the outputs that exist,
      in file order. */
  function MapperOutputs(files: seq<Option<string>>): seq<Table>
  {
    Present(Map(MapperTask, files))
  }

  /** A token that is not a digit string is not counted and does not
      disturb the counting of the tokens around it. */
  lemma NonDigitTokenIgnored(before: seq<string>, tok: string, after: seq<string>)
    requires !IsDigits(tok)
    ensures CountTokens(before + [tok] + after) == CountTokens(before + after)
  {
    MapPresentSkip(DigitValue, before, tok, after);
    MapAppend(DigitValue, before, after);
    PresentAppend(Map(DigitValue, before), Map(DigitValue, after));
    assert TokenValues(before + [tok] + after) == TokenValues(before + after);
  }

  /** Leading zeros do not make a different integer: "007" is counted
      under the key 7. */
  lemma LeadingZerosSameKey(tok: string)
    requires IsDigits(tok)
    ensures DigitValue("0" + tok) == DigitValue(tok)
  {
    LeadingZeroIgnored(tok);
  }

  /** A missing file produces no output, and the other files are still
      counted. */
  lemma MissingFileSkipped(before: seq<Option<string>>, after: seq<Option<string>>)
    ensures MapperOutputs(before + [None] + after) == MapperOutputs(before + after)
  {
    MapPresentSkip(MapperTask, before, None, after);
    MapAppend(MapperTask, before, after);
    PresentAppend(Map(MapperTask, before), Map(MapperTask, after));
  }

  // ---------------------------------------------------------------------
  // Reducer
  // ---------------------------------------------------------------------

  /** One line of the ranking: its rank from 1, the integer and its count. */
  datatype RankedRow = RankedRow(rank: nat, key: int, count: int)

  /** What the reducer reports: the number of mapper outputs it read, the
      sum of all merged counts, and the ranked rows. */
  datatype Report = Report(numFiles: nat, totalCount: int, rows: seq<RankedRow>)

  /** Counter.update over the mapper outputs in the order they are found:
      every key's count is summed over the outputs. */
  function Merged(outputs: seq<Table>): (t: Table)
    ensures forall k :: Get(t, k) == KeyTotalOf(outputs, k)
    ensures Keys(t) == KeysOf(outputs)
    ensures Sum(t) == TotalOf(outputs)
    ensures DistinctKeys(t)
  {
    var t := AddAll([], Flatten(outputs));
    forall k ensures Get(t, k) == KeyTotalOf(outputs, k) {
      FlattenTables(outputs, k);
    }
    FlattenTables(outputs, 0);
    t
  }

  /** enumerate(top, 1). */
  function Numbered(top: seq<Entry>): (rows: seq<RankedRow>)
    ensures |rows| == |top|
    ensures forall i :: 0 <= i < |rows| ==> rows[i] == RankedRow(i + 1, top[i].key, top[i].count)
  {
    seq(|top|, i requires 0 <= i < |top| => RankedRow(i + 1, top[i].key, top[i].count))
  }

  /** The six entries the reducer ranks: each carries its integer's summed
      count, counts never increase down the list, no integer appears twice,
      and an integer left out has no larger count than one ranked. */
  lemma RankedEntries(outputs: seq<Table>)
    ensures |Top(ByCount, Merged(outputs), TOP)| == Min(TOP, |Merged(outputs)|)
    ensures forall i :: 0 <= i < |Top(ByCount, Merged(outputs), TOP)| ==>
      Top(ByCount, Merged(outputs), TOP)[i].count == KeyTotalOf(outputs, Top(ByCount, Merged(outputs), TOP)[i].key)
    ensures forall i, j :: 0 <= i < j < |Top(ByCount, Merged(outputs), TOP)| ==>
      Top(ByCount, Merged(outputs), TOP)[j].count <= Top(ByCount, Merged(outputs), TOP)[i].count
      && Top(ByCount, Merged(outputs), TOP)[i].key != Top(ByCount, Merged(outputs), TOP)[j].key
    ensures forall k, i :: k in KeysOf(outputs) && k !in Keys(Top(ByCount, Merged(outputs), TOP)) && 0 <= i < |Top(ByCount, Merged(outputs), TOP)| ==>
      KeyTotalOf(outputs, k) <= Top(ByCount, Merged(outputs), TOP)[i].count
  {
    var merged := Merged(outputs);
    var top := Top(ByCount, merged, TOP);
    TopOfTable(ByCount, merged, TOP);
    assert Sorted(ByCount, top);
    assert UniqueKeys(top);
  }

  /** The ranked rows of the report, numbered from 1: the six largest
      merged counts (fewer when fewer integers were seen) in non-increasing
      order with distinct integers, each with its summed count, and no
      integer left out has a larger count than one ranked. */
  function RankedRows(outputs: seq<Table>): (rows: seq<RankedRow>)
    ensures |rows| == Min(TOP, |Merged(outputs)|)
    ensures forall i :: 0 <= i < |rows| ==> rows[i].rank == i + 1 && rows[i].count == KeyTotalOf(outputs, rows[i].key)
    ensures forall i, j :: 0 <= i < j < |rows| ==> rows[j].count <= rows[i].count && rows[i].key != rows[j].key
    ensures forall k, i :: k in KeysOf(outputs) && 0 <= i < |rows| && (forall j :: 0 <= j < |rows| ==> rows[j].key != k) ==> KeyTotalOf(outputs, k) <= rows[i].count
  {
    var top := Top(ByCount, Merged(outputs), TOP);
    var rows := Numbered(top);
    RankedEntries(outputs);
    forall k | (forall j :: 0 <= j < |rows| ==> rows[j].key != k)
      ensures k !in Keys(top)
    {
      if k in Keys(top) {
        var e := EntryOf(top, k);
        assert false;
      }
    }
    rows
  }

  /** The reducer: exit status 1 when the mapper phase left no outputs;
      otherwise the report of how many outputs it read, the sum of all
      their counts, and the ranked rows. */
  function ReducerTask(outputs: seq<Table>): (r: Result<Report, int>)
    ensures r.Failure? <==> |outputs| == 0
    ensures r.Failure? ==> r.error == 1
    ensures r.Success? ==> r.value.numFiles == |outputs| && r.value.totalCount == TotalOf(outputs)
    ensures r.Success? ==> r.value.rows == RankedRows(outputs)
  {
    if |outputs| == 0 then Failure(1)
    else Success(Report(|outputs|, Sum(Merged(outputs)), RankedRows(outputs)))
  }

  /** The reducer reads the outputs in whatever order the file system lists
      them: the counts it sums and the totals it reports do not depend on
      that order. */
  lemma OrderIndependent(outputs: seq<Table>, listed: seq<Table>, k: int)
    requires multiset(listed) == multiset(outputs)
    ensures Get(Merged(listed), k) == Get(Merged(outputs), k)
    ensures Sum(Merged(listed)) == Sum(Merged(outputs))
    ensures |listed| == |outputs|
  {
    TotalsPermutation(outputs, listed, k);
    assert |listed| == |multiset(listed)| == |multiset(outputs)| == |outputs|;
  }

  /** Tied counts are ranked in the order their integers were first
      merged, as most_common ranks them. */
  lemma TieOrder(outputs: seq<Table>, c: int)
    ensures WithCount(Top(ByCount, Merged(outputs), TOP), c) <= WithCount(Merged(outputs), c)
  {
    TopStable(Merged(outputs), TOP, c);
  }

  // ---------------------------------------------------------------------
  // Both phases
  // ---------------------------------------------------------------------

  /** The values counted from one input file; none from a missing one. */
  function FileValues(file: Option<string>): seq<int>
  {
    if file.None? then [] else TokenValues(Split(file.value))
  }

  /** The values counted from all input files, in order. */
  function AllValues(files: seq<Option<string>>): seq<int>
  {
    Flatten(Map(FileValues, files))
  }

  /** Mapper counts, summed over the mapper outputs, count every digit
      token of every existing file. */
  lemma {:induction false} OutputsCount(files: seq<Option<string>>, k: int)
    ensures KeyTotalOf(MapperOutputs(files), k) == multiset(AllValues(files))[k]
    ensures TotalOf(MapperOutputs(files)) == |AllValues(files)|
  {
    if |files| > 0 {
      var f := files[0];
      var rest := files[1..];
      OutputsCount(rest, k);
      assert files == [f] + rest;
      MapAppend(MapperTask, [f], rest);
      PresentAppend(Map(MapperTask, [f]), Map(MapperTask, rest));
      MapAppend(FileValues, [f], rest);
      FlattenAppend(Map(FileValues, [f]), Map(FileValues, rest));
      assert Flatten(Map(FileValues, [f])) == FileValues(f) by {
        assert Map(FileValues, [f]) == [FileValues(f)];
      }
      assert multiset(AllValues(files)) == multiset(FileValues(f)) + multiset(AllValues(rest));
      if f.Some? {
        var t := CountTokens(Split(f.value));
        assert Present(Map(MapperTask, [f])) == [t];
        assert MapperOutputs(files) == [t] + MapperOutputs(rest);
        assert ([t] + MapperOutputs(rest))[1..] == MapperOutputs(rest);
        PresentCount(Map(DigitValue, Split(f.value)), k);
        GetIsKeyTotal(t, k);
      } else {
        assert Present(Map(MapperTask, [f])) == [];
        assert MapperOutputs(files) == MapperOutputs(rest);
        assert FileValues(f) == [];
      }
    }
  }

  /** The whole job: the reducer fails exactly when none of the input
      files exists; otherwise every integer's reported count is the number of times
      it occurs as a digit token across the existing files, and the total
      is the number of such tokens. */
  lemma EndToEnd(files: seq<Option<string>>, k: int)
    ensures ReducerTask(MapperOutputs(files)).Failure? <==> forall i :: 0 <= i < |files| ==> files[i].None?
    ensures Get(Merged(MapperOutputs(files)), k) == multiset(AllValues(files))[k]
    ensures ReducerTask(MapperOutputs(files)).Success? ==>
      ReducerTask(MapperOutputs(files)).value.totalCount == |AllValues(files)|
  {
    OutputsCount(files, k);
    PresentEmpty(Map(MapperTask, files));
  }
}
