/**
 * map_reduce_pipeline.py: a three-phase pipeline over the integers 0..100.
 * Each of n map tasks reads the input files it owns round-robin, parses
 * every whitespace-separated token with int() and counts the values that
 * fall in 0..100 into a 101-cell array. Each of n reduce tasks sums, over
 * all mapper arrays, the cells whose index it owns by `index % n`. The
 * report sums the reducer arrays cell by cell and lists the top_k
 * (integer, count) pairs by count descending and integer ascending.
 *
 * Files are their text; the JSON arrays between phases are the integer
 * sequences they hold. A run that raises is a Failure carrying the Python
 * exception, and then the phase writes nothing.
 */
module BucketPipeline {
  import opened Wrappers
  import opened Seqs
  import opened PyText
  import opened Partition
  import opened Tables
  import opened Ranking

  /** The number of cells of every array: the integers 0..100. */
  const BUCKETS: nat := 101

  /** The exceptions a phase can raise on the data it reads. */
  datatype PyError = ValueError | ZeroDivisionError | IndexError

  /** [0]*101. */
  function Zeros(): (z: seq<int>)
    ensures |z| == BUCKETS && forall v :: 0 <= v < BUCKETS ==> z[v] == 0
  {
    seq(BUCKETS, _ => 0)
  }

  // ---------------------------------------------------------------------
  // Mapper
  // ---------------------------------------------------------------------

  /** The tokens of a file: every line split on whitespace, in order. */
  function FileTokens(content: string): seq<string>
  {
    Flatten(Map(Split, Lines(content)))
  }

  /** int() accepts every token of the file. */
  predicate FileParses(content: string)
  {
    forall i :: 0 <= i < |FileTokens(content)| ==> ParseInt(FileTokens(content)[i]).Some?
  }

  /** The integers of a file, in order (tokens int() rejects have none). */
  function FileValues(content: string): seq<int>
  {
    Present(Map(ParseInt, FileTokens(content)))
  }

  /** The integers of a list of files, file after file. */
  function ValuesOf(files: seq<string>): seq<int>
  {
    Flatten(Map(FileValues, files))
  }

  /** `counts[v] += 1` for every value v in 0..100, in order: cell v ends
      as the number of occurrences of v, and values outside 0..100 are not
      counted anywhere. */
  function Histogram(vals: seq<int>): (h: seq<int>)
    ensures |h| == BUCKETS
    ensures forall v :: 0 <= v < BUCKETS ==> h[v] == multiset(vals)[v]
    decreases |vals|
  {
    if |vals| == 0 then Zeros()
    else
      var init := vals[..|vals| - 1];
      var v := vals[|vals| - 1];
      var h := Histogram(init);
      assert vals == init + [v];
      assert multiset(vals) == multiset(init) + multiset{v};
      if 0 <= v <= 100 then h[v := h[v] + 1] else h
  }

  /** Map task `task` of n: ZeroDivisionError as soon as it computes
      `i % n` with n = 0 (so only when there are files); ValueError when a
      token of a file it owns is not an integer; otherwise the array whose
      cell v counts the occurrences of v in the files it owns. Files of
      other tasks are never opened, so their tokens do not matter. */
  function Mapper(files: seq<string>, task: int, n: int): (r: Result<seq<int>, PyError>)
    ensures n == 0 ==> r == if |files| == 0 then Success(Zeros()) else Failure(ZeroDivisionError)
    ensures n != 0 ==> (r.Failure? <==> exists f :: f in RoundRobin(files, task, n) && !FileParses(f))
    ensures n != 0 && r.Failure? ==> r.error == ValueError
    ensures r.Success? ==> |r.value| == BUCKETS
    ensures n != 0 && r.Success? ==>
      forall v :: 0 <= v < BUCKETS ==> r.value[v] == multiset(ValuesOf(RoundRobin(files, task, n)))[v]
  {
    if n == 0 then
      if |files| == 0 then Success(Zeros()) else Failure(ZeroDivisionError)
    else
      var owned := RoundRobin(files, task, n);
      if exists f :: f in owned && !FileParses(f) then Failure(ValueError)
      else Success(Histogram(ValuesOf(owned)))
  }

  /** A token int() rejects in file i fails the task that owns file i. */
  lemma MalformedTokenFails(files: seq<string>, n: int, i: nat, j: nat)
    requires n != 0 && i < |files| && j < |FileTokens(files[i])|
    requires ParseInt(FileTokens(files[i])[j]).None?
    ensures Mapper(files, PyMod(i, n), n) == Failure(ValueError)
  {
    RoundRobinOwner(files, i, n);
  }

  // ---------------------------------------------------------------------
  // Reducer
  // ---------------------------------------------------------------------

  /** The reference sum of cell v over a list of arrays; an array too
      short to have cell v contributes nothing. */
  function ColumnSum(parts: seq<seq<int>>, v: nat): int
  {
    if |parts| == 0 then 0
    else (if v < |parts[0]| then parts[0][v] else 0) + ColumnSum(parts[1..], v)
  }

  /** The array has a cell at or beyond index 101, from position i on, that
      task `task` of n owns. */
  predicate OwnedOverflow(arr: seq<int>, i: nat, task: int, n: int)
    requires n != 0
  {
    exists c :: i <= c < |arr| && BUCKETS <= c && PyMod(c, n) == task
  }

  /** The inner loop of the reducer over one array from position i on:
      `partial[c] += arr[c]` for every cell c the task owns. With n = 0 the
      first `c % n` raises ZeroDivisionError; an owned cell beyond the 101
      of `partial` raises IndexError. */
  function AddRow(partial: seq<int>, arr: seq<int>, task: int, n: int, i: nat): (r: Result<seq<int>, PyError>)
    requires |partial| == BUCKETS && i <= |arr|
    ensures n == 0 ==> r == if i == |arr| then Success(partial) else Failure(ZeroDivisionError)
    ensures n != 0 ==> (r.Failure? <==> OwnedOverflow(arr, i, task, n))
    ensures n != 0 && r.Failure? ==> r.error == IndexError
    ensures r.Success? ==> |r.value| == BUCKETS
    ensures n != 0 && r.Success? ==> forall v :: 0 <= v < BUCKETS ==>
      r.value[v] == partial[v] + (if i <= v < |arr| && PyMod(v, n) == task then arr[v] else 0)
    decreases |arr| - i
  {
    if i == |arr| then Success(partial)
    else if n == 0 then Failure(ZeroDivisionError)
    else if PyMod(i, n) != task then AddRow(partial, arr, task, n, i + 1)
    else if i >= BUCKETS then Failure(IndexError)
    else AddRow(partial[i := partial[i] + arr[i]], arr, task, n, i + 1)
  }

  /** The outer loop of the reducer: the arrays one after another. */
  function AddRows(partial: seq<int>, parts: seq<seq<int>>, task: int, n: int): (r: Result<seq<int>, PyError>)
    requires |partial| == BUCKETS
    ensures n == 0 ==> (r.Failure? <==> exists j :: 0 <= j < |parts| && |parts[j]| > 0)
    ensures n == 0 && r.Failure? ==> r.error == ZeroDivisionError
    ensures n == 0 && r.Success? ==> r.value == partial
    ensures n != 0 ==> (r.Failure? <==> exists j :: 0 <= j < |parts| && OwnedOverflow(parts[j], 0, task, n))
    ensures n != 0 && r.Failure? ==> r.error == IndexError
    ensures r.Success? ==> |r.value| == BUCKETS
    ensures n != 0 && r.Success? ==> forall v :: 0 <= v < BUCKETS ==>
      r.value[v] == partial[v] + (if PyMod(v, n) == task then ColumnSum(parts, v) else 0)
    decreases |parts|
  {
    if |parts| == 0 then Success(partial)
    else
      match AddRow(partial, parts[0], task, n, 0)
      case Failure(e) => Failure(e)
      case Success(p) =>
        var r := AddRows(p, parts[1..], task, n);
        assert forall j :: 1 <= j < |parts| ==> parts[j] == parts[1..][j - 1];
        r
  }

  /** Reduce task `task` of n over the mapper arrays: cell v holds the sum
      of cell v over all arrays when the task owns v (v % n == task), and 0
      otherwise. */
  function Reducer(parts: seq<seq<int>>, task: int, n: int): (r: Result<seq<int>, PyError>)
    ensures n == 0 ==> (r.Failure? <==> exists j :: 0 <= j < |parts| && |parts[j]| > 0)
    ensures n == 0 ==> r.Failure? ==> r.error == ZeroDivisionError
    ensures n == 0 && r.Success? ==> r.value == Zeros()
    ensures n != 0 ==> (r.Failure? <==> exists j :: 0 <= j < |parts| && OwnedOverflow(parts[j], 0, task, n))
    ensures n != 0 && r.Failure? ==> r.error == IndexError
    ensures r.Success? ==> |r.value| == BUCKETS
    ensures n != 0 && r.Success? ==> forall v :: 0 <= v < BUCKETS ==>
      r.value[v] == if PyMod(v, n) == task then ColumnSum(parts, v) else 0
  {
    AddRows(Zeros(), parts, task, n)
  }

  lemma {:induction false} ColumnSumAppend(a: seq<seq<int>>, b: seq<seq<int>>, v: nat)
    ensures ColumnSum(a + b, v) == ColumnSum(a, v) + ColumnSum(b, v)
  {
    if |a| == 0 {
      assert a + b == b;
    } else {
      assert (a + b)[0] == a[0];
      assert (a + b)[1..] == a[1..] + b;
      ColumnSumAppend(a[1..], b, v);
    }
  }

  /** Taking one array out of a list removes exactly its cell. */
  lemma ColumnSumWithout(us: seq<seq<int>>, j: nat, v: nat)
    requires j < |us|
    ensures ColumnSum(us, v) == (if v < |us[j]| then us[j][v] else 0) + ColumnSum(us[..j] + us[j + 1..], v)
  {
    var tail := [us[j]] + us[j + 1..];
    assert us == us[..j] + tail;
    ColumnSumAppend(us[..j], tail, v);
    ColumnSumAppend(us[..j], us[j + 1..], v);
    assert tail[1..] == us[j + 1..];
  }

  /** Cell sums do not depend on the order the arrays are listed in. */
  lemma {:induction false} ColumnSumPermutation(ts: seq<seq<int>>, us: seq<seq<int>>, v: nat)
    requires multiset(ts) == multiset(us)
    ensures ColumnSum(ts, v) == ColumnSum(us, v)
    decreases |ts|
  {
    if |ts| == 0 {
      assert |us| == |multiset(us)| == 0;
    } else {
      var j := MatchFirst(ts, us);
      ColumnSumPermutation(ts[1..], us[..j] + us[j + 1..], v);
      ColumnSumWithout(us, j, v);
    }
  }

  // ---------------------------------------------------------------------
  // Report
  // ---------------------------------------------------------------------

  /** The report's `final[i] += int(c)` over every cell of every reducer
      array. It is the reducer's loop with a single task, which owns every
      cell (i % 1 == 0): cell v is the sum of cell v over the arrays, and an
      array longer than 101 cells raises IndexError. */
  function Totals(parts: seq<seq<int>>): (r: Result<seq<int>, PyError>)
    ensures r.Failure? <==> exists j :: 0 <= j < |parts| && |parts[j]| > BUCKETS
    ensures r.Failure? ==> r.error == IndexError
    ensures r.Success? ==> |r.value| == BUCKETS
    ensures r.Success? ==> forall v :: 0 <= v < BUCKETS ==> r.value[v] == ColumnSum(parts, v)
  {
    var r := AddRows(Zeros(), parts, 0, 1);
    forall j | 0 <= j < |parts| ensures OwnedOverflow(parts[j], 0, 0, 1) <==> |parts[j]| > BUCKETS {
      if |parts[j]| > BUCKETS {
        assert PyMod(BUCKETS, 1) == 0;
      }
    }
    r
  }

  /** [(i, final[i]) for i in range(101)]. */
  function Pairs(final: seq<int>): (ps: seq<Entry>)
    requires |final| == BUCKETS
    ensures |ps| == BUCKETS && forall i :: 0 <= i < BUCKETS ==> ps[i] == Entry(i, final[i])
  {
    seq(BUCKETS, i requires 0 <= i < BUCKETS => Entry(i, final[i]))
  }

  /** The report's rows: the pairs sorted by (-count, integer), then
      `pairs[:top_k]`. Rows hold distinct integers of 0..100, each with its
      summed count, in ranking order; there are min(top_k, 101) of them for
      a non-negative top_k (a negative one cuts from the end, as a Python
      slice does), and an integer left out would not be ranked before any
      integer kept. Zero counts are ranked like any other. */
  function Report(parts: seq<seq<int>>, topK: int): (r: Result<seq<Entry>, PyError>)
    ensures r.Failure? <==> exists j :: 0 <= j < |parts| && |parts[j]| > BUCKETS
    ensures r.Failure? ==> r.error == IndexError
    ensures r.Success? ==> |r.value| == SliceBound(topK, BUCKETS)
    ensures r.Success? && topK >= 0 ==> |r.value| == Min(topK, BUCKETS)
    ensures r.Success? ==> Sorted(ByCountThenKey, r.value) && UniqueKeys(r.value)
    ensures r.Success? ==> forall i :: 0 <= i < |r.value| ==>
      0 <= r.value[i].key < BUCKETS && r.value[i].count == ColumnSum(parts, r.value[i].key)
    ensures r.Success? ==> forall v, i :: 0 <= v < BUCKETS && 0 <= i < |r.value| && v !in Keys(r.value) ==>
      !Precedes(ByCountThenKey, Entry(v, ColumnSum(parts, v)), r.value[i])
  {
    match Totals(parts)
    case Failure(e) => Failure(e)
    case Success(final) =>
      var pairs := Pairs(final);
      var rows := PySlice(Sort(ByCountThenKey, pairs), 0, topK);
      RowsOfPairs(final, topK);
      Success(rows)
  }

  /** The facts the report's contract needs about the slice of the sorted
      pairs. */
  lemma RowsOfPairs(final: seq<int>, topK: int)
    requires |final| == BUCKETS
    ensures var rows := PySlice(Sort(ByCountThenKey, Pairs(final)), 0, topK);
      rows == Top(ByCountThenKey, Pairs(final), SliceBound(topK, BUCKETS)) &&
      UniqueKeys(rows) &&
      (forall i :: 0 <= i < |rows| ==> 0 <= rows[i].key < BUCKETS && rows[i].count == final[rows[i].key]) &&
      (forall v, i :: 0 <= v < BUCKETS && 0 <= i < |rows| && v !in Keys(rows) ==>
         !Precedes(ByCountThenKey, Entry(v, final[v]), rows[i]))
  {
    var pairs := Pairs(final);
    var k := SliceBound(topK, BUCKETS);
    var rows := Top(ByCountThenKey, pairs, k);
    assert PySlice(Sort(ByCountThenKey, pairs), 0, topK) == rows;
    forall i | 0 <= i < |rows| ensures 0 <= rows[i].key < BUCKETS && rows[i].count == final[rows[i].key] {
      assert rows[i] in multiset(pairs);
    }
    assert UniqueKeys(pairs);
    UniqueKeysOfPart(pairs, rows);
    forall v | 0 <= v < BUCKETS && v !in Keys(rows) ensures pairs[v] in multiset(pairs) - multiset(rows) {
      if pairs[v] in rows {
        var j :| 0 <= j < |rows| && rows[j] == pairs[v];
        KeyAt(rows, j);
      }
    }
  }

  /** The ranking is determined by the counts alone: any arrangement of the
      pairs sorted by (-count, integer) begins with the report's rows. */
  lemma ReportIsTheRanking(parts: seq<seq<int>>, topK: int, ranked: seq<Entry>)
    requires Totals(parts).Success?
    requires multiset(ranked) == multiset(Pairs(Totals(parts).value)) && Sorted(ByCountThenKey, ranked)
    ensures |ranked| == BUCKETS
    ensures Report(parts, topK) == Success(ranked[..SliceBound(topK, BUCKETS)])
  {
    var pairs := Pairs(Totals(parts).value);
    var sorted := Sort(ByCountThenKey, pairs);
    assert UniqueKeys(pairs);
    UniqueKeysOfPart(pairs, sorted);
    SortedUnique(sorted, ranked);
    assert |ranked| == |multiset(ranked)| == |multiset(pairs)| == BUCKETS;
  }

  /** With no reducer files every count is 0, and the report lists the
      integers 0, 1, 2, ... with count 0: "(0, 0) .. (5, 0)" for top_k = 6. */
  lemma NoReducerFiles(topK: int)
    ensures Report([], topK) == Success(seq(SliceBound(topK, BUCKETS), i => Entry(i, 0)))
  {
    var final := Totals([]).value;
    assert final == Zeros();
    var pairs := Pairs(final);
    assert Sorted(ByCountThenKey, pairs);
    ReportIsTheRanking([], topK, pairs);
    assert pairs[..SliceBound(topK, BUCKETS)] == seq(SliceBound(topK, BUCKETS), i => Entry(i, 0));
  }

  /** The report does not depend on the order the reducer files are read
      in. */
  lemma ReportOrderIndependent(parts: seq<seq<int>>, listed: seq<seq<int>>, topK: int)
    requires multiset(listed) == multiset(parts)
    ensures Report(listed, topK) == Report(parts, topK)
  {
    forall j | 0 <= j < |parts| ensures parts[j] in listed {
      assert parts[j] in multiset(listed);
    }
    forall j | 0 <= j < |listed| ensures listed[j] in parts {
      assert listed[j] in multiset(parts);
    }
    if Totals(parts).Success? {
      assert Totals(listed).Success? by {
        forall j | 0 <= j < |listed| ensures |listed[j]| <= BUCKETS {
          var i :| 0 <= i < |parts| && parts[i] == listed[j];
        }
      }
      forall v | 0 <= v < BUCKETS ensures Totals(listed).value[v] == Totals(parts).value[v] {
        ColumnSumPermutation(listed, parts, v);
      }
      assert Totals(listed).value == Totals(parts).value;
    }
  }

  // ---------------------------------------------------------------------
  // The three phases together
  // ---------------------------------------------------------------------

  /** int() accepts every token of every input file. */
  predicate AllParse(files: seq<string>)
  {
    forall f :: f in files ==> FileParses(f)
  }

  /** The array map task `task` writes when every token parses. */
  function MapperArray(files: seq<string>, task: int, n: int): (a: seq<int>)
    requires n != 0 && AllParse(files)
    ensures |a| == BUCKETS
    ensures forall v :: 0 <= v < BUCKETS ==> a[v] == multiset(ValuesOf(RoundRobin(files, task, n)))[v]
  {
    RoundRobinListed(files, task, n);
    Mapper(files, task, n).value
  }

  /** The arrays of map tasks 0..k-1. */
  function MapperArrays(files: seq<string>, n: int, k: nat): (parts: seq<seq<int>>)
    requires n != 0 && AllParse(files)
    ensures |parts| == k
  {
    if k == 0 then [] else MapperArrays(files, n, k - 1) + [MapperArray(files, k - 1, n)]
  }

  lemma {:induction false} MapperArraysAt(files: seq<string>, n: int, k: nat, t: nat)
    requires n != 0 && AllParse(files) && t < k
    ensures MapperArrays(files, n, k)[t] == MapperArray(files, t, n)
  {
    var before := MapperArrays(files, n, k - 1);
    var last := MapperArray(files, k - 1, n);
    assert MapperArrays(files, n, k) == before + [last];
    if t < k - 1 {
      MapperArraysAt(files, n, k - 1, t);
      assert (before + [last])[t] == before[t];
    } else {
      assert (before + [last])[t] == last;
    }
  }

  /** Arrays of at most 101 cells, as the mappers write. */
  predicate FitBuckets(parts: seq<seq<int>>)
  {
    forall j :: 0 <= j < |parts| ==> |parts[j]| <= BUCKETS
  }

  /** The array reduce task `task` writes over arrays that fit. */
  function ReducerArray(parts: seq<seq<int>>, task: int, n: int): (a: seq<int>)
    requires n != 0 && FitBuckets(parts)
    ensures |a| == BUCKETS
    ensures forall v :: 0 <= v < BUCKETS ==> a[v] == if PyMod(v, n) == task then ColumnSum(parts, v) else 0
  {
    Reducer(parts, task, n).value
  }

  /** The arrays of reduce tasks 0..k-1. */
  function ReducerArrays(parts: seq<seq<int>>, n: int, k: nat): (rs: seq<seq<int>>)
    requires n != 0 && FitBuckets(parts)
    ensures |rs| == k
  {
    if k == 0 then [] else ReducerArrays(parts, n, k - 1) + [ReducerArray(parts, k - 1, n)]
  }

  lemma {:induction false} ReducerArraysAt(parts: seq<seq<int>>, n: int, k: nat, t: nat)
    requires n != 0 && FitBuckets(parts) && t < k
    ensures ReducerArrays(parts, n, k)[t] == ReducerArray(parts, t, n)
  {
    var before := ReducerArrays(parts, n, k - 1);
    var last := ReducerArray(parts, k - 1, n);
    assert ReducerArrays(parts, n, k) == before + [last];
    if t < k - 1 {
      ReducerArraysAt(parts, n, k - 1, t);
      assert (before + [last])[t] == before[t];
    } else {
      assert (before + [last])[t] == last;
    }
  }

  /** Reduce tasks 0..k-1 together hold cell v's sum exactly when one of
      them owns v: the key partition loses and duplicates nothing. */
  lemma {:induction false} ReducersConserve(parts: seq<seq<int>>, n: int, k: nat, v: nat)
    requires n >= 1 && FitBuckets(parts) && v < BUCKETS
    ensures ColumnSum(ReducerArrays(parts, n, k), v) == if PyMod(v, n) < k then ColumnSum(parts, v) else 0
  {
    if k > 0 {
      ReducersConserve(parts, n, k - 1, v);
      var before := ReducerArrays(parts, n, k - 1);
      var last := ReducerArray(parts, k - 1, n);
      assert ReducerArrays(parts, n, k) == before + [last];
      ColumnSumAppend(before, [last], v);
      assert ColumnSum([last], v) == last[v] + ColumnSum([last][1..], v);
    }
  }

  lemma ValuesOfSnoc(files: seq<string>, x: string)
    ensures ValuesOf(files + [x]) == ValuesOf(files) + FileValues(x)
  {
    MapAppend(FileValues, files, [x]);
    assert Map(FileValues, [x]) == [FileValues(x)];
    FlattenSnoc(Map(FileValues, files), FileValues(x));
  }

  /** How often v occurs in a file. */
  function Occurrences(v: int): string -> int
  {
    content => multiset(FileValues(content))[v]
  }

  lemma CountSnoc(files: seq<string>, x: string, v: int)
    ensures multiset(ValuesOf(files + [x]))[v] == multiset(ValuesOf(files))[v] + multiset(FileValues(x))[v]
  {
    ValuesOfSnoc(files, x);
    assert multiset(ValuesOf(files) + FileValues(x)) == multiset(ValuesOf(files)) + multiset(FileValues(x));
  }

  /** Occurrences in a list of files add up file by file. */
  lemma {:induction false} ValuesCount(files: seq<string>, v: int)
    ensures multiset(ValuesOf(files))[v] == SumOf(Occurrences(v), files)
    decreases |files|
  {
    if |files| == 0 {
      assert ValuesOf(files) == [];
    } else {
      var last := |files| - 1;
      var init := files[..last];
      ValuesCount(init, v);
      InitLast(files);
      CountSnoc(init, files[last], v);
    }
  }

  lemma {:induction false} MappersColumn(files: seq<string>, n: int, k: nat, v: nat)
    requires n >= 1 && AllParse(files) && v < BUCKETS
    ensures ColumnSum(MapperArrays(files, n, k), v) == TasksSum(Occurrences(v), files, n, k)
  {
    if k > 0 {
      MappersColumn(files, n, k - 1, v);
      var before := MapperArrays(files, n, k - 1);
      var last := MapperArray(files, k - 1, n);
      assert MapperArrays(files, n, k) == before + [last];
      ColumnSumAppend(before, [last], v);
      assert ColumnSum([last], v) == last[v] + ColumnSum([last][1..], v);
      ValuesCount(RoundRobin(files, k - 1, n), v);
    }
  }

  /** Every map task's array has the 101 cells of the buckets. */
  lemma MappedFit(files: seq<string>, n: int)
    requires n >= 1 && AllParse(files)
    ensures FitBuckets(MapperArrays(files, n, n))
  {
    forall j | 0 <= j < n ensures |MapperArrays(files, n, n)[j]| <= BUCKETS {
      MapperArraysAt(files, n, n, j);
    }
  }

  /** Every reduce task's array has the 101 cells of the buckets. */
  lemma ReducedFit(parts: seq<seq<int>>, n: int)
    requires n >= 1 && FitBuckets(parts)
    ensures FitBuckets(ReducerArrays(parts, n, n))
  {
    forall j | 0 <= j < n ensures |ReducerArrays(parts, n, n)[j]| <= BUCKETS {
      ReducerArraysAt(parts, n, n, j);
    }
  }

  /** Map then reduce: cell v summed over the reduce tasks' arrays is the
      number of occurrences of v in all the files. */
  lemma ReducedCounts(files: seq<string>, n: int, v: nat)
    requires n >= 1 && AllParse(files) && v < BUCKETS
    requires FitBuckets(MapperArrays(files, n, n))
    ensures ColumnSum(ReducerArrays(MapperArrays(files, n, n), n, n), v) == multiset(ValuesOf(files))[v]
  {
    ReducersConserve(MapperArrays(files, n, n), n, n, v);
    MappersColumn(files, n, n, v);
    RoundRobinConserves(Occurrences(v), files, n);
    ValuesCount(files, v);
  }

  /** The whole pipeline with n map and n reduce tasks over files whose
      tokens all parse: every phase succeeds, and the report's count of each
      integer in 0..100 is the number of its occurrences in all the files;
      no integer left out occurs more often than one listed. */
  lemma EndToEnd(files: seq<string>, n: int, topK: int)
    requires n >= 1 && AllParse(files)
    ensures FitBuckets(MapperArrays(files, n, n))
    ensures var reduced := ReducerArrays(MapperArrays(files, n, n), n, n);
      forall v :: 0 <= v < BUCKETS ==> ColumnSum(reduced, v) == multiset(ValuesOf(files))[v]
    ensures var rows := Report(ReducerArrays(MapperArrays(files, n, n), n, n), topK);
      rows.Success? &&
      (forall i :: 0 <= i < |rows.value| ==> rows.value[i].count == multiset(ValuesOf(files))[rows.value[i].key]) &&
      (forall v, i :: 0 <= v < BUCKETS && 0 <= i < |rows.value| && v !in Keys(rows.value) ==>
         multiset(ValuesOf(files))[v] <= rows.value[i].count)
  {
    MappedFit(files, n);
    var reduced := ReducerArrays(MapperArrays(files, n, n), n, n);
    forall v | 0 <= v < BUCKETS ensures ColumnSum(reduced, v) == multiset(ValuesOf(files))[v] {
      ReducedCounts(files, n, v);
    }
    ReducedFit(MapperArrays(files, n, n), n);
  }
}
