/**
 * The line-oriented integer count (mapreduce_count.py, and
 * mapreduce_counter.py, whose map, reduce and report logic is the same and
 * differs only in the directories used and in writing the report to
 * output.txt instead of printing it).
 *
 * Mapper `id` of NUM_MAPPERS reads its contiguous block of the sorted input
 * files, counts the lines that int() accepts after strip(), and writes its
 * table as "number count" lines. Reducer `id` of NUM_REDUCERS reads every
 * mapper artifact and sums the counts of the keys with key % NUM_REDUCERS ==
 * id. The report stores every reducer line into one dictionary, the last
 * value read for a key winning, and ranks it by count.
 *
 * File contents are strings; the artifacts a phase reads are given in the
 * order the directory listing returns them.
 */
module MapReduceCount {
  import opened Wrappers
  import opened Seqs
  import opened PyText
  import opened Partition
  import opened Tables
  import opened Codec
  import opened Ranking

  /** The report prints the top 6 items. */
  const TOP: nat := 6

  // ---------------------------------------------------------------------
  // Mapper
  // ---------------------------------------------------------------------

  /** int(line.strip()); None where int() raises ValueError and the line
      is skipped. */
  function LineValue(line: string): Option<int>
  {
    ParseInt(Strip(line))
  }

  /** The lines of the files, file after file. */
  function AllLines(files: seq<string>): seq<string>
  {
    Flatten(Map(Lines, files))
  }

  /** The values of the lines that parse, in reading order. */
  function Values(files: seq<string>): seq<int>
  {
    Present(Map(LineValue, AllLines(files)))
  }

  lemma ValuesAppend(a: seq<string>, b: seq<string>)
    ensures Values(a + b) == Values(a) + Values(b)
  {
    MapAppend(Lines, a, b);
    FlattenAppend(Map(Lines, a), Map(Lines, b));
    MapAppend(LineValue, AllLines(a), AllLines(b));
    PresentAppend(Map(LineValue, AllLines(a)), Map(LineValue, AllLines(b)));
  }

  /** A line int() rejects is skipped: the lines around it yield what they
      yield without it, and reading goes on after it. */
  lemma UnparsableLineSkipped(before: seq<string>, line: string, after: seq<string>)
    requires LineValue(line).None?
    ensures Present(Map(LineValue, before + [line] + after))
      == Present(Map(LineValue, before)) + Present(Map(LineValue, after))
  {
    MapPresentSkip(LineValue, before, line, after);
  }

  /** The local counts of a mapper over the files it was assigned: the
      count of k is the number of lines whose stripped text int() reads as
      k, and the counts add up to the number of lines that parse. */
  function MapperTable(files: seq<string>): (t: Table)
    ensures forall k :: Get(t, k) == multiset(Map(LineValue, AllLines(files)))[Some(k)]
    ensures forall k :: Get(t, k) == multiset(Values(files))[k]
    ensures DistinctKeys(t) && Positive(t)
    ensures Sum(t) == |Values(files)|
  {
    var t := Tally(Values(files));
    forall k ensures Get(t, k) == multiset(Map(LineValue, AllLines(files)))[Some(k)] {
      PresentCount(Map(LineValue, AllLines(files)), k);
    }
    t
  }

  /** The table of mapper `id` of `m`, over its block of the file list. */
  function MapperCounts(files: seq<string>, id: int, m: int): Table
    requires m >= 1
  {
    MapperTable(BlockAssign(files, id, m))
  }

  /** The intermediate file mapper `id` writes. */
  function RunMapper(files: seq<string>, id: int, m: int): string
    requires m >= 1
  {
    Serialize(MapperCounts(files, id, m))
  }

  // ---------------------------------------------------------------------
  // Reducer
  // ---------------------------------------------------------------------

  /** The items whose key reducer `id` of `r` owns, in order. */
  function Owned(es: seq<Entry>, id: int, r: int): seq<Entry>
    requires r >= 1
  {
    if |es| == 0 then []
    else (if PyMod(es[0].key, r) == id then [es[0]] else []) + Owned(es[1..], id, r)
  }

  lemma {:induction false} OwnedKeyTotal(es: seq<Entry>, id: int, r: int, k: int)
    requires r >= 1
    ensures KeyTotal(Owned(es, id, r), k) == if PyMod(k, r) == id then KeyTotal(es, k) else 0
  {
    if |es| > 0 {
      var h := if PyMod(es[0].key, r) == id then [es[0]] else [];
      OwnedKeyTotal(es[1..], id, r, k);
      KeyTotalAppend(h, Owned(es[1..], id, r), k);
      assert KeyTotal(h, k) == if PyMod(k, r) == id && es[0].key == k then es[0].count else 0;
    }
  }

  lemma {:induction false} OwnedKeys(es: seq<Entry>, id: int, r: int)
    requires r >= 1
    ensures forall k :: k in Keys(Owned(es, id, r)) <==> k in Keys(es) && PyMod(k, r) == id
  {
    if |es| > 0 {
      var h := if PyMod(es[0].key, r) == id then [es[0]] else [];
      OwnedKeys(es[1..], id, r);
      KeysAppend(h, Owned(es[1..], id, r));
      assert Keys(h) == if PyMod(es[0].key, r) == id then {es[0].key} else {};
    }
  }

  /** The items of all intermediate files, file after file. */
  function ArtifactEntries(arts: seq<string>): seq<Entry>
  {
    Flatten(Map(Parse, arts))
  }

  /** The items of the first n files listed are those of the first n-1
      followed by those of the n-th. */
  lemma ArtifactEntriesPrefix(arts: seq<string>, n: nat)
    requires 0 < n <= |arts|
    ensures ArtifactEntries(arts[..n]) == ArtifactEntries(arts[..n - 1]) + Parse(arts[n - 1])
  {
    assert arts[..n] == arts[..n - 1] + [arts[n - 1]];
    MapAppend(Parse, arts[..n - 1], [arts[n - 1]]);
    assert Map(Parse, [arts[n - 1]]) == [Parse(arts[n - 1])];
    FlattenSnoc(Map(Parse, arts[..n - 1]), Parse(arts[n - 1]));
  }

  /** Listing the same files in another order yields the same items,
      rearranged. */
  lemma ArtifactsPermutation(arts: seq<string>, arts2: seq<string>)
    requires multiset(arts) == multiset(arts2)
    ensures multiset(ArtifactEntries(arts)) == multiset(ArtifactEntries(arts2))
  {
    MapPermutation(Parse, arts, arts2);
    FlattenPermutation(Map(Parse, arts), Map(Parse, arts2));
  }

  /** The final counts of reducer `id` of `r` over the items `es` read from
      every artifact: `final_counts[number] += count` for every item it
      owns, in reading order. */
  function Reduce(es: seq<Entry>, id: int, r: int): Table
    requires r >= 1
  {
    AddAll([], Owned(es, id, r))
  }

  /** A reducer's table holds exactly the keys it owns that occur among the
      items, each once, with the sum of its counts over all the items. */
  lemma ReduceSpec(es: seq<Entry>, id: int, r: int)
    requires r >= 1
    ensures forall k :: Get(Reduce(es, id, r), k) == if PyMod(k, r) == id then KeyTotal(es, k) else 0
    ensures forall k :: k in Keys(Reduce(es, id, r)) <==> k in Keys(es) && PyMod(k, r) == id
    ensures DistinctKeys(Reduce(es, id, r))
    ensures Sum(Reduce(es, id, r)) == Sum(Owned(es, id, r))
  {
    forall k ensures Get(Reduce(es, id, r), k) == if PyMod(k, r) == id then KeyTotal(es, k) else 0 {
      OwnedKeyTotal(es, id, r, k);
    }
    OwnedKeys(es, id, r);
  }

  /** A reducer's table holds, for one key, the key's total over the items
      when the reducer owns it, and nothing otherwise. */
  lemma ReduceKeyTotal(es: seq<Entry>, id: int, r: int, k: int)
    requires r >= 1
    ensures KeyTotal(Reduce(es, id, r), k) == if PyMod(k, r) == id then KeyTotal(es, k) else 0
  {
    var t := Reduce(es, id, r);
    OwnedKeyTotal(es, id, r, k);
    assert DistinctKeys(t);
    GetIsKeyTotal(t, k);
  }

  /** For one key: what a reducer stores for it, and whether it stores it
      at all. */
  lemma ReduceKey(es: seq<Entry>, id: int, r: int, k: int)
    requires r >= 1
    ensures Get(Reduce(es, id, r), k) == if PyMod(k, r) == id then KeyTotal(es, k) else 0
    ensures k in Keys(Reduce(es, id, r)) <==> k in Keys(es) && PyMod(k, r) == id
  {
    OwnedKeyTotal(es, id, r, k);
    OwnedKeys(es, id, r);
  }

  /** A reducer's dictionary holds each key at most once. */
  lemma ReduceDistinct(es: seq<Entry>, id: int, r: int)
    requires r >= 1
    ensures DistinctKeys(Reduce(es, id, r))
  {
    assert DistinctKeys([]);
  }

  /** The output file reducer `id` writes after reading every artifact. */
  function RunReducer(arts: seq<string>, id: int, r: int): string
    requires r >= 1
  {
    Serialize(Reduce(ArtifactEntries(arts), id, r))
  }

  /** The sum of the counts reducers 0..n-1 of r keep. */
  function OwnedTotal(es: seq<Entry>, r: int, n: nat): int
    requires r >= 1
  {
    if n == 0 then 0 else OwnedTotal(es, r, n - 1) + Sum(Owned(es, n - 1, r))
  }

  lemma {:induction false} OwnedTotalCons(e: Entry, es: seq<Entry>, r: int, n: nat)
    requires r >= 1
    ensures OwnedTotal([e] + es, r, n)
      == (if PyMod(e.key, r) < n then e.count else 0) + OwnedTotal(es, r, n)
  {
    assert ([e] + es)[1..] == es;
    if n > 0 {
      OwnedTotalCons(e, es, r, n - 1);
      var h := if PyMod(e.key, r) == n - 1 then [e] else [];
      SumAppend(h, Owned(es, n - 1, r));
    }
  }

  /** Count conservation from map to reduce: ownership is total and
      disjoint, so the reducers together keep every count exactly once. */
  lemma {:induction false} OwnedTotalAll(es: seq<Entry>, r: int)
    requires r >= 1
    ensures OwnedTotal(es, r, r) == Sum(es)
  {
    if |es| == 0 {
      OwnedTotalEmpty(es, r, r);
    } else {
      OwnedTotalAll(es[1..], r);
      OwnedTotalCons(es[0], es[1..], r, r);
      assert [es[0]] + es[1..] == es;
    }
  }

  lemma {:induction false} OwnedTotalEmpty(es: seq<Entry>, r: int, n: nat)
    requires r >= 1 && |es| == 0
    ensures OwnedTotal(es, r, n) == 0
  {
    if n > 0 {
      OwnedTotalEmpty(es, r, n - 1);
    }
  }

  // ---------------------------------------------------------------------
  // Report
  // ---------------------------------------------------------------------

  /** The report's dictionary: every item read is stored with
      `total_counts[number] = count`, so a key read more than once keeps
      the last count read. */
  function Merge(arts: seq<string>): (t: Table)
    ensures forall k :: Get(t, k) == if k in Keys(ArtifactEntries(arts)) then LastCount(ArtifactEntries(arts), k) else 0
    ensures Keys(t) == Keys(ArtifactEntries(arts))
    ensures DistinctKeys(t)
  {
    PutAll([], ArtifactEntries(arts))
  }

  /** Writing tables as intermediate files and reading the files back
      yields the items of the tables, table after table. */
  lemma ArtifactsOfTables(ts: seq<Table>)
    ensures ArtifactEntries(Map(Serialize, ts)) == Flatten(ts)
  {
    var arts := Map(Serialize, ts);
    assert Map(Parse, arts) == ts by {
      forall i | 0 <= i < |ts| ensures Parse(arts[i]) == ts[i] {
        RoundTrip(ts[i]);
      }
    }
  }

  /** Counts are overwritten, not summed: when the same key is read from
      two lines, the dictionary ends with the count read last, a + b
      appearing nowhere. */
  lemma MergeOverwrites(arts: seq<string>, k: int, a: int, b: int)
    requires ArtifactEntries(arts) == [Entry(k, a), Entry(k, b)]
    ensures Merge(arts) == [Entry(k, b)]
  {
    var es := [Entry(k, a), Entry(k, b)];
    assert PutAll([], es) == PutAll([Entry(k, a)], es[1..]);
    assert es[1..][1..] == [];
  }

  /** Two intermediate files holding the same key do produce such a pair
      of items. */
  lemma TwoFilesSameKey(k: int, a: int, b: int)
    ensures ArtifactEntries(Map(Serialize, [[Entry(k, a)], [Entry(k, b)]])) == [Entry(k, a), Entry(k, b)]
  {
    var ts := [[Entry(k, a)], [Entry(k, b)]];
    ArtifactsOfTables(ts);
    FlattenPair([Entry(k, a)], [Entry(k, b)]);
  }

  /** Over artifacts whose keys never repeat (the reducers' outputs), the
      merge is just their union, in reading order. */
  lemma MergeOfDisjoint(arts: seq<string>)
    requires DistinctKeys(ArtifactEntries(arts))
    ensures Merge(arts) == ArtifactEntries(arts)
  {
    PutAllFresh([], ArtifactEntries(arts));
    assert [] + ArtifactEntries(arts) == ArtifactEntries(arts);
  }

  /** The report: nothing when there are no reducer files; otherwise the
      first min(6, distinct keys) items of the merged dictionary in a stable
      sort by count, descending. */
  function RunReport(arts: seq<string>): (rows: Option<seq<Entry>>)
    ensures rows.None? <==> |arts| == 0
    ensures rows.Some? ==> |rows.value| == Min(TOP, |Keys(ArtifactEntries(arts))|)
    ensures rows.Some? ==> Sorted(ByCount, rows.value)
    ensures rows.Some? ==> multiset(rows.value) <= multiset(Merge(arts))
    ensures rows.Some? ==> forall x, i :: x in multiset(Merge(arts)) - multiset(rows.value) && 0 <= i < |rows.value|
                            ==> x.count <= rows.value[i].count
  {
    if |arts| == 0 then None
    else
      var merged := Merge(arts);
      DistinctKeysCount(merged);
      Some(Top(ByCount, merged, TOP))
  }

  /** Items of equal count are printed in the order the merge first stored
      their keys, which follows the reading order of the reducer files. */
  lemma ReportTieOrder(arts: seq<string>, c: int)
    requires |arts| > 0
    ensures WithCount(RunReport(arts).value, c) <= WithCount(Merge(arts), c)
  {
    TopStable(Merge(arts), TOP, c);
  }

  // ---------------------------------------------------------------------
  // The three phases together
  // ---------------------------------------------------------------------

  /** The intermediate files of mappers 0..m-1. */
  function MapperArtifacts(files: seq<string>, m: int): (arts: seq<string>)
    requires m >= 1
    ensures |arts| == m
  {
    seq(m, id requires 0 <= id < m => RunMapper(files, id, m))
  }

  /** Each intermediate file reads back as the table of the mapper that
      wrote it. */
  lemma MapperArtifactsReadBack(files: seq<string>, m: int)
    requires m >= 1
    ensures forall id :: 0 <= id < m ==> Parse(MapperArtifacts(files, m)[id]) == MapperCounts(files, id, m)
  {
    forall id | 0 <= id < m ensures Parse(MapperArtifacts(files, m)[id]) == MapperCounts(files, id, m) {
      RoundTrip(MapperCounts(files, id, m));
    }
  }

  /** The tables of reducers 0..n-1 of r over the items read. */
  function ReducerTables(es: seq<Entry>, r: int, n: nat): (ts: seq<Table>)
    requires r >= 1
    ensures |ts| == n
  {
    if n == 0 then [] else ReducerTables(es, r, n - 1) + [Reduce(es, n - 1, r)]
  }

  /** Reducers 0..n-1 are reducers 0..n-2 followed by reducer n-1. */
  lemma ReducerTablesSnoc(es: seq<Entry>, r: int, n: nat)
    requires r >= 1 && n > 0
    ensures ReducerTables(es, r, n) == ReducerTables(es, r, n - 1) + [Reduce(es, n - 1, r)]
  {
  }

  /** The output files of reducers 0..n-1 of r, reducer `id` reading the
      intermediate files in the order its own directory listing
      `listings[id]` returns them. */
  function ReducerRuns(listings: seq<seq<string>>, r: int, n: nat): (outs: seq<string>)
    requires r >= 1 && n <= |listings|
    ensures |outs| == n
  {
    seq(n, id requires 0 <= id < n => RunReducer(listings[id], id, r))
  }

  /** Each reducer output file reads back as the table of the reducer that
      wrote it. */
  lemma ReducerRunReadBack(listings: seq<seq<string>>, r: int, n: nat)
    requires r >= 1 && n <= |listings|
    ensures forall i :: 0 <= i < n ==>
      Parse(ReducerRuns(listings, r, n)[i]) == Reduce(ArtifactEntries(listings[i]), i, r)
  {
    forall i | 0 <= i < n
      ensures Parse(ReducerRuns(listings, r, n)[i]) == Reduce(ArtifactEntries(listings[i]), i, r)
    {
      RoundTrip(Reduce(ArtifactEntries(listings[i]), i, r));
    }
  }

  /** Reading the same items in another order, a reducer builds a
      dictionary with the same keys and counts, possibly inserted in
      another order. */
  lemma ReducePermuted(es: seq<Entry>, es2: seq<Entry>, id: int, r: int)
    requires r >= 1 && multiset(es) == multiset(es2)
    ensures forall k :: Get(Reduce(es2, id, r), k) == Get(Reduce(es, id, r), k)
    ensures multiset(Reduce(es2, id, r)) == multiset(Reduce(es, id, r))
  {
    var t, t2 := Reduce(es, id, r), Reduce(es2, id, r);
    forall k ensures Get(t2, k) == Get(t, k) {
      ReduceKey(es, id, r, k);
      ReduceKey(es2, id, r, k);
      EntriesPermutation(es, es2, k);
    }
    forall k ensures k in Keys(t) <==> k in Keys(t2) {
      ReduceKey(es, id, r, k);
      ReduceKey(es2, id, r, k);
      EntriesPermutation(es, es2, k);
    }
    assert Keys(t) == Keys(t2);
    ReduceDistinct(es, id, r);
    ReduceDistinct(es2, id, r);
    SameItems(t, t2);
  }

  /** A reducer's table does not depend on the order it reads the
      intermediate files in: any listing of the same files gives the same
      items, possibly inserted in another order. */
  lemma ReduceAnyOrder(arts: seq<string>, arts2: seq<string>, id: int, r: int)
    requires r >= 1 && multiset(arts) == multiset(arts2)
    ensures multiset(Reduce(ArtifactEntries(arts2), id, r)) == multiset(Reduce(ArtifactEntries(arts), id, r))
    ensures forall k :: Get(Reduce(ArtifactEntries(arts2), id, r), k) == Get(Reduce(ArtifactEntries(arts), id, r), k)
    ensures Sum(Reduce(ArtifactEntries(arts2), id, r)) == Sum(Reduce(ArtifactEntries(arts), id, r))
  {
    ArtifactsPermutation(arts, arts2);
    ReducePermuted(ArtifactEntries(arts), ArtifactEntries(arts2), id, r);
    EntriesPermutation(Reduce(ArtifactEntries(arts2), id, r), Reduce(ArtifactEntries(arts), id, r), 0);
  }

  /** Each file a reducer writes, read back, holds the items of its table
      over the intermediate files, whatever order its listing returned them
      in. */
  lemma ReducerRunItems(listings: seq<seq<string>>, arts: seq<string>, r: int)
    requires r >= 1 && r <= |listings|
    requires forall id :: 0 <= id < r ==> multiset(listings[id]) == multiset(arts)
    ensures forall id :: 0 <= id < r ==>
      multiset(Parse(ReducerRuns(listings, r, r)[id])) == multiset(Reduce(ArtifactEntries(arts), id, r))
  {
    forall id | 0 <= id < r
      ensures multiset(Parse(ReducerRuns(listings, r, r)[id])) == multiset(Reduce(ArtifactEntries(arts), id, r))
    {
      RoundTrip(Reduce(ArtifactEntries(listings[id]), id, r));
      ReduceAnyOrder(arts, listings[id], id, r);
    }
  }

  /** Files 0..n-1 that each read back as a rearrangement of the table of
      the reducer with that id together hold a rearrangement of the
      reducers' tables. */
  lemma {:induction false} ReducerFilesEntries(outs: seq<string>, es: seq<Entry>, r: int, n: nat)
    requires r >= 1 && n <= |outs|
    requires forall id :: 0 <= id < n ==> multiset(Parse(outs[id])) == multiset(Reduce(es, id, r))
    ensures multiset(ArtifactEntries(outs[..n])) == multiset(Flatten(ReducerTables(es, r, n)))
  {
    if n == 0 {
      assert outs[..0] == [];
    } else {
      var t := Reduce(es, n - 1, r);
      assert multiset(ArtifactEntries(outs[..n - 1])) == multiset(Flatten(ReducerTables(es, r, n - 1))) by {
        ReducerFilesEntries(outs, es, r, n - 1);
      }
      assert ArtifactEntries(outs[..n]) == ArtifactEntries(outs[..n - 1]) + Parse(outs[n - 1]) by {
        ArtifactEntriesPrefix(outs, n);
      }
      assert Flatten(ReducerTables(es, r, n)) == Flatten(ReducerTables(es, r, n - 1)) + t by {
        ReducerTablesSnoc(es, r, n);
        FlattenSnoc(ReducerTables(es, r, n - 1), t);
      }
      AppendPermutation(ArtifactEntries(outs[..n - 1]), Parse(outs[n - 1]), Flatten(ReducerTables(es, r, n - 1)), t);
    }
  }

  /** The mappers' tables over consecutive groups of files hold, for every
      key, as many counts as the key has lines in all the files. */
  lemma {:induction false} MapperTablesCount(bs: seq<seq<string>>, k: int)
    ensures KeyTotalOf(Map(MapperTable, bs), k) == multiset(Values(Flatten(bs)))[k]
    ensures TotalOf(Map(MapperTable, bs)) == |Values(Flatten(bs))|
  {
    if |bs| > 0 {
      var ts := Map(MapperTable, bs);
      MapTail(MapperTable, bs);
      MapperTablesCount(bs[1..], k);
      GetIsKeyTotal(ts[0], k);
      ValuesAppend(bs[0], Flatten(bs[1..]));
    }
  }

  /** What the reducers read: for every key, the mappers' artifacts hold in
      total as many counts as the input files have lines reading as the
      key, and all their counts add up to the number of such lines. */
  lemma MapperArtifactsCount(files: seq<string>, m: int, k: int)
    requires m >= 1
    ensures KeyTotal(ArtifactEntries(MapperArtifacts(files, m)), k) == multiset(Values(files))[k]
    ensures Sum(ArtifactEntries(MapperArtifacts(files, m))) == |Values(files)|
  {
    var tables := Map(MapperTable, Blocks(files, m, m));
    assert MapperArtifacts(files, m) == Map(Serialize, tables);
    ArtifactsOfTables(tables);
    FlattenTables(tables, k);
    MapperTablesCount(Blocks(files, m, m), k);
    BlocksCoverFiles(files, m);
  }

  /** Reducers 0..n-1 write disjoint sets of keys, each key at most once,
      all owned by one of them. */
  lemma {:induction false} ReducersDisjoint(es: seq<Entry>, r: int, n: nat)
    requires r >= 1
    ensures DistinctKeys(Flatten(ReducerTables(es, r, n)))
    ensures forall k :: k in Keys(Flatten(ReducerTables(es, r, n))) ==> 0 <= PyMod(k, r) < n
  {
    if n > 0 {
      var before := ReducerTables(es, r, n - 1);
      var last := Reduce(es, n - 1, r);
      var fb := Flatten(before);
      assert Flatten(ReducerTables(es, r, n)) == fb + last by {
        ReducerTablesSnoc(es, r, n);
        FlattenSnoc(before, last);
      }
      assert DistinctKeys(fb) && forall k :: k in Keys(fb) ==> 0 <= PyMod(k, r) < n - 1 by {
        ReducersDisjoint(es, r, n - 1);
      }
      assert forall k :: k in Keys(last) ==> PyMod(k, r) == n - 1 by {
        forall k | k in Keys(last) ensures PyMod(k, r) == n - 1 {
          ReduceKey(es, n - 1, r, k);
        }
      }
      assert Keys(fb + last) == Keys(fb) + Keys(last) by {
        KeysAppend(fb, last);
      }
      assert DistinctKeys(fb + last) by {
        assert Keys(fb) !! Keys(last) by {
          forall k | k in Keys(fb) ensures k !in Keys(last) {
            assert PyMod(k, r) < n - 1;
          }
        }
        ReduceDistinct(es, n - 1, r);
        DistinctAppend(fb, last);
      }
    } else {
      assert ReducerTables(es, r, n) == [];
    }
  }

  /** Reducers 0..n-1 together hold, for a key, the key's total over the
      items read when one of them owns it, and nothing otherwise. */
  lemma {:induction false} ReducersKeyTotal(es: seq<Entry>, r: int, n: nat, k: int)
    requires r >= 1
    ensures KeyTotalOf(ReducerTables(es, r, n), k)
      == if PyMod(k, r) < n then KeyTotal(es, k) else 0
  {
    if n > 0 {
      var before := ReducerTables(es, r, n - 1);
      var last := Reduce(es, n - 1, r);
      ReducerTablesSnoc(es, r, n);
      ReduceKeyTotal(es, n - 1, r, k);
      ReducersKeyTotal(es, r, n - 1, k);
      TotalsAppend(before, [last], k);
      assert KeyTotalOf([last], k) == KeyTotal(last, k) + KeyTotalOf([], k);
    }
  }

  lemma {:induction false} ReducersTotal(es: seq<Entry>, r: int, n: nat)
    requires r >= 1
    ensures TotalOf(ReducerTables(es, r, n)) == OwnedTotal(es, r, n)
  {
    if n > 0 {
      var before := ReducerTables(es, r, n - 1);
      var last := Reduce(es, n - 1, r);
      ReducerTablesSnoc(es, r, n);
      ReduceSpec(es, n - 1, r);
      ReducersTotal(es, r, n - 1);
      TotalsAppend(before, [last], 0);
      assert TotalOf([last]) == Sum(last) + TotalOf([]);
      assert Sum(last) == Sum(Owned(es, n - 1, r));
    }
  }

  /** Count conservation from map to reduce: the reducers' tables together
      hold exactly the sum of all counts in the items they read. */
  lemma ReduceConserves(es: seq<Entry>, r: int)
    requires r >= 1
    ensures TotalOf(ReducerTables(es, r, r)) == Sum(es)
  {
    ReducersTotal(es, r, r);
    OwnedTotalAll(es, r);
  }

  /** The report's dictionary over a listing of items that rearranges a
      sequence with no repeated key: no count is ever overwritten, so it
      holds every key with its count. */
  lemma MergeOfPermuted(outs: seq<string>, es: seq<Entry>, k: int)
    requires multiset(ArtifactEntries(outs)) == multiset(es) && DistinctKeys(es)
    ensures Merge(outs) == ArtifactEntries(outs)
    ensures Get(Merge(outs), k) == KeyTotal(es, k)
    ensures Sum(Merge(outs)) == Sum(es)
  {
    var read := ArtifactEntries(outs);
    DistinctIsUnique(es);
    UniqueKeysOfPart(es, read);
    UniqueIsDistinct(read);
    MergeOfDisjoint(outs);
    GetIsKeyTotal(read, k);
    EntriesPermutation(read, es, k);
  }

  /** The files reducers 0..r-1 write, whatever order each of them listed
      the intermediate files in, hold together a rearrangement of the
      reducers' tables over the items of those files. */
  lemma ReducerOutputItems(listings: seq<seq<string>>, arts: seq<string>, r: int)
    requires r >= 1 && |listings| == r
    requires forall id :: 0 <= id < r ==> multiset(listings[id]) == multiset(arts)
    ensures multiset(ArtifactEntries(ReducerRuns(listings, r, r)))
      == multiset(Flatten(ReducerTables(ArtifactEntries(arts), r, r)))
  {
    var runs := ReducerRuns(listings, r, r);
    ReducerRunItems(listings, arts, r);
    ReducerFilesEntries(runs, ArtifactEntries(arts), r, r);
    assert runs[..r] == runs;
  }

  /** The tables of reducers 0..r-1 together hold every key at most once,
      each with its whole total over the items read, and all counts read. */
  lemma ReducerTablesUnion(es: seq<Entry>, r: int, k: int)
    requires r >= 1
    ensures DistinctKeys(Flatten(ReducerTables(es, r, r)))
    ensures KeyTotal(Flatten(ReducerTables(es, r, r)), k) == KeyTotal(es, k)
    ensures Sum(Flatten(ReducerTables(es, r, r))) == Sum(es)
  {
    var ts := ReducerTables(es, r, r);
    ReducersDisjoint(es, r, r);
    FlattenTables(ts, k);
    ReducersKeyTotal(es, r, r, k);
    ReduceConserves(es, r);
  }

  /** What the report reads back from the reducers, in whatever order its
      listing returns their files and whatever order each reducer listed the
      intermediate files in, is their union: every key at most once, with
      the key's total over the intermediate files. */
  lemma ReportInput(listings: seq<seq<string>>, arts: seq<string>, outs: seq<string>, r: int, k: int)
    requires r >= 1 && |listings| == r
    requires forall id :: 0 <= id < r ==> multiset(listings[id]) == multiset(arts)
    requires multiset(outs) == multiset(ReducerRuns(listings, r, r))
    ensures Merge(outs) == ArtifactEntries(outs)
    ensures Get(Merge(outs), k) == KeyTotal(ArtifactEntries(arts), k)
    ensures Sum(Merge(outs)) == Sum(ArtifactEntries(arts))
  {
    var es := ArtifactEntries(arts);
    var all := Flatten(ReducerTables(es, r, r));
    assert multiset(ArtifactEntries(outs)) == multiset(all) by {
      ArtifactsPermutation(outs, ReducerRuns(listings, r, r));
      ReducerOutputItems(listings, arts, r);
    }
    assert DistinctKeys(all) && KeyTotal(all, k) == KeyTotal(es, k) && Sum(all) == Sum(es) by {
      ReducerTablesUnion(es, r, k);
    }
    MergeOfPermuted(outs, all, k);
  }

  /** Map, reduce and merge together count correctly: with m >= 1 mappers
      and r >= 1 reducers, whatever order the directory listings return the
      intermediate files to each reducer and the reducer files to the
      report, the dictionary the report ranks holds, for every integer, the
      number of input lines that read as that integer, and its counts add up
      to the number of lines that read as an integer at all. No count is
      lost or counted twice on the way. */
  lemma EndToEnd(files: seq<string>, m: int, r: int, listings: seq<seq<string>>, outs: seq<string>, k: int)
    requires m >= 1 && r >= 1 && |listings| == r
    requires forall id :: 0 <= id < r ==> multiset(listings[id]) == multiset(MapperArtifacts(files, m))
    requires multiset(outs) == multiset(ReducerRuns(listings, r, r))
    ensures Get(Merge(outs), k) == multiset(Values(files))[k]
    ensures Sum(Merge(outs)) == |Values(files)|
  {
    ReportInput(listings, MapperArtifacts(files, m), outs, r, k);
    MapperArtifactsCount(files, m, k);
  }
}
