/**
 * The two partitioners of the pipeline. The input partitioner decides which
 * input files a mapper owns: contiguous blocks with the remainder on the last
 * mapper, or round-robin by file index. The key partitioner decides which
 * reducer owns an integer key: Python's `key % reducers`.
 */
module Partition {
  import opened Seqs

  // ---------------------------------------------------------------------
  // Python integer division
  // ---------------------------------------------------------------------

  /** Python's a // b: the quotient rounded towards minus infinity. */
  function PyFloorDiv(a: int, b: int): int
    requires b != 0
  {
    if b > 0 || a % b == 0 then a / b else a / b - 1
  }

  /** Python's a % b: the remainder of floor division, which takes the sign
      of the divisor. A zero divisor raises ZeroDivisionError, which callers
      exclude or report. */
  function PyMod(a: int, b: int): (r: int)
    requires b != 0
    ensures b > 0 ==> 0 <= r < b
    ensures b < 0 ==> b < r <= 0
  {
    if b > 0 || a % b == 0 then a % b else a % b + b
  }

  /** Floor division and its remainder recompose the dividend. */
  lemma PyDivMod(a: int, b: int)
    requires b != 0
    ensures a == b * PyFloorDiv(a, b) + PyMod(a, b)
  {
    if b < 0 && a % b != 0 {
      assert b * (a / b - 1) == b * (a / b) - b;
    }
  }

  /** With a positive divisor Python's remainder and Dafny's agree, so the
      owner of a key is the non-negative residue of the key, negative keys
      included: key k belongs to reducer id exactly when k and id are
      congruent modulo the reducer count. */
  lemma OwnerIsResidue(k: int, r: int, id: int)
    requires r >= 1 && 0 <= id < r
    ensures PyMod(k, r) == id <==> exists q :: k == r * q + id
  {
    PyDivMod(k, r);
    if PyMod(k, r) == id {
      assert k == r * PyFloorDiv(k, r) + id;
    }
    if exists q :: k == r * q + id {
      var q :| k == r * q + id;
      var q' := PyFloorDiv(k, r);
      var m := PyMod(k, r);
      assert r * q + id == r * q' + m;
      ResidueUnique(r, q, id, q', m);
    }
  }

  /** Two representations k = r*q + m with remainders in [0, r) agree. */
  lemma ResidueUnique(r: int, q: int, m: int, q': int, m': int)
    requires r >= 1 && 0 <= m < r && 0 <= m' < r
    requires r * q + m == r * q' + m'
    ensures m == m'
  {
    assert r * q - r * q' == r * (q - q');
    if q > q' {
      MulAtLeast(r, q - q');
    } else if q < q' {
      assert r * q' - r * q == r * (q' - q);
      MulAtLeast(r, q' - q);
    }
  }

  lemma {:induction false} MulAtLeast(r: int, d: int)
    requires r >= 1 && d >= 1
    ensures r * d >= r
    decreases d
  {
    if d > 1 {
      MulAtLeast(r, d - 1);
      assert r * d == r * (d - 1) + r;
    }
  }

  // ---------------------------------------------------------------------
  // Contiguous blocks (mapreduce_count.py, mapreduce_counter.py)
  // ---------------------------------------------------------------------

  /** Where a Python slice bound lands in a sequence of length n: negative
      bounds count from the end, and bounds are clamped to [0, n]. */
  function SliceBound(i: int, n: nat): (r: nat)
    ensures r <= n
    ensures 0 <= i <= n ==> r == i
    ensures i > n ==> r == n
    ensures -(n as int) <= i < 0 ==> r == n + i
    ensures i < -(n as int) ==> r == 0
  {
    if i < 0 then (if i + n < 0 then 0 else i + n) else if i > n then n else i
  }

  /** Python's s[lo:hi]. */
  function PySlice<T>(s: seq<T>, lo: int, hi: int): (r: seq<T>)
    ensures 0 <= lo <= hi <= |s| ==> r == s[lo..hi]
  {
    var a := SliceBound(lo, |s|);
    var b := SliceBound(hi, |s|);
    if a < b then s[a..b] else []
  }

  /** Python's s[:k]: the whole of s when k reaches past its end, the
      first k elements for 0 <= k <= |s|, s without its last -k elements
      for a negative k, and nothing when -k exceeds |s|. */
  lemma PrefixSlice<T>(s: seq<T>, k: int)
    ensures k >= |s| ==> PySlice(s, 0, k) == s
    ensures 0 <= k <= |s| ==> PySlice(s, 0, k) == s[..k]
    ensures -|s| <= k < 0 ==> PySlice(s, 0, k) + s[|s| + k..] == s && |s[|s| + k..]| == -k
    ensures k < -|s| ==> PySlice(s, 0, k) == []
  {
    if -|s| <= k < 0 {
      assert PySlice(s, 0, k) == s[..|s| + k];
    }
  }

  /** The files mapper `id` of `m` reads: the block of floor(n/m) files at
      id*floor(n/m), the last mapper running to the end of the list. The id
      is not range-checked, so an id outside [0, m) gets whatever the slice
      gives. */
  function BlockAssign<T>(files: seq<T>, id: int, m: int): seq<T>
    requires m >= 1
  {
    var per := |files| / m;
    var start := id * per;
    var end := if id == m - 1 then |files| else start + per;
    PySlice(files, start, end)
  }

  /** Every mapper but the last reads exactly floor(n/m) files: the block
      that starts at id*floor(n/m). */
  lemma InnerBlock<T>(files: seq<T>, id: int, m: int)
    requires m >= 1 && 0 <= id < m - 1
    ensures 0 <= id * (|files| / m) <= (id + 1) * (|files| / m) <= |files|
    ensures |BlockAssign(files, id, m)| == |files| / m
    ensures BlockAssign(files, id, m) == files[id * (|files| / m)..(id + 1) * (|files| / m)]
  {
    var per := |files| / m;
    InnerBlockBounds(|files|, m, id, per);
    var start := id * per;
    assert BlockAssign(files, id, m) == PySlice(files, start, start + per);
    SliceInside(files, start, start + per);
  }

  /** The last mapper reads floor(n/m) + n%m files: everything from
      (m-1)*floor(n/m) to the end of the list. */
  lemma LastBlock<T>(files: seq<T>, m: int)
    requires m >= 1
    ensures 0 <= (m - 1) * (|files| / m) <= |files|
    ensures |BlockAssign(files, m - 1, m)| == |files| / m + |files| % m
    ensures BlockAssign(files, m - 1, m) == files[(m - 1) * (|files| / m)..]
  {
    var per := |files| / m;
    LastBlockBounds(|files|, m, per);
    var start := (m - 1) * per;
    assert BlockAssign(files, m - 1, m) == PySlice(files, start, |files|);
    SliceInside(files, start, |files|);
  }

  lemma SliceInside<T>(s: seq<T>, lo: int, hi: int)
    requires 0 <= lo <= hi <= |s|
    ensures PySlice(s, lo, hi) == s[lo..hi]
  {
  }

  lemma InnerBlockBounds(n: nat, m: int, id: int, per: int)
    requires m >= 1 && per == n / m && 0 <= id < m - 1
    ensures 0 <= id * per <= id * per + per == (id + 1) * per <= n
  {
    assert n == m * per + n % m;
    MulMono(id + 1, m, per);
  }

  lemma LastBlockBounds(n: nat, m: int, per: int)
    requires m >= 1 && per == n / m
    ensures 0 <= (m - 1) * per <= n
    ensures n - (m - 1) * per == per + n % m
  {
    assert n == m * per + n % m;
    assert (m - 1) * per == m * per - per;
  }

  lemma MulMono(a: int, b: int, c: nat)
    requires 0 <= a <= b
    ensures 0 <= a * c <= b * c
  {
  }

  /** The blocks of mappers 0..k-1, in mapper order. */
  function Blocks<T>(files: seq<T>, m: int, k: nat): (bs: seq<seq<T>>)
    requires m >= 1
    ensures |bs| == k
    ensures forall id :: 0 <= id < k ==> bs[id] == BlockAssign(files, id, m)
  {
    if k == 0 then [] else Blocks(files, m, k - 1) + [BlockAssign(files, k - 1, m)]
  }

  /** Mappers 0..k-1 together read a prefix of the list of k blocks. */
  lemma {:induction false} BlocksPrefix<T>(files: seq<T>, m: int, k: nat)
    requires m >= 1 && k <= m - 1
    ensures 0 <= k * (|files| / m) <= |files|
    ensures Flatten(Blocks(files, m, k)) == files[..k * (|files| / m)]
  {
    var per := |files| / m;
    if k > 0 {
      var lo := (k - 1) * per;
      var hi := k * per;
      BlocksPrefix(files, m, k - 1);
      InnerBlockBounds(|files|, m, k - 1, per);
      assert 0 <= lo <= hi <= |files|;
      InnerBlock(files, k - 1, m);
      var block := BlockAssign(files, k - 1, m);
      assert block == files[lo..hi];
      FlattenSnoc(Blocks(files, m, k - 1), block);
      SliceJoin(files, lo, hi);
    }
  }

  /** Block partition totality and disjointness: the blocks of mappers
      0..m-1, laid end to end, are exactly the (sorted) file list. */
  lemma BlocksCoverFiles<T>(files: seq<T>, m: int)
    requires m >= 1
    ensures Flatten(Blocks(files, m, m)) == files
  {
    var per := |files| / m;
    BlocksPrefix(files, m, m - 1);
    LastBlock(files, m);
    LastBlockBounds(|files|, m, per);
    var start := (m - 1) * per;
    var block := BlockAssign(files, m - 1, m);
    FlattenSnoc(Blocks(files, m, m - 1), block);
    assert block == files[start..];
    SliceJoin(files, start, |files|);
  }

  /** With more mappers than files every mapper but the last reads nothing,
      and the last reads every file. */
  lemma FewFilesAllOnLast<T>(files: seq<T>, m: int, id: int)
    requires m > |files| && 0 <= id < m
    ensures BlockAssign(files, id, m) == if id == m - 1 then files else []
  {
    assert |files| / m == 0;
    assert |files| % m == |files|;
  }

  // ---------------------------------------------------------------------
  // Round robin (map_reduce_pipeline.py)
  // ---------------------------------------------------------------------

  /** The files task `task` of `n` reads: file i exactly when
      i % n == task, in file order. */
  function RoundRobin<T>(files: seq<T>, task: int, n: int): (r: seq<T>)
    requires n != 0
    ensures |r| <= |files|
    decreases |files|
  {
    if |files| == 0 then []
    else
      var last := |files| - 1;
      RoundRobin(files[..last], task, n) + (if PyMod(last, n) == task then [files[last]] else [])
  }

  /** File i is read by task i % n. */
  lemma {:induction false} RoundRobinOwner<T>(files: seq<T>, i: nat, n: int)
    requires n != 0 && i < |files|
    ensures files[i] in RoundRobin(files, PyMod(i, n), n)
    decreases |files|
  {
    var last := |files| - 1;
    if i < last {
      RoundRobinOwner(files[..last], i, n);
      assert files[..last][i] == files[i];
    }
  }

  /** One more file goes to the task that owns its index. */
  lemma RoundRobinSnoc<T>(files: seq<T>, x: T, task: int, n: int)
    requires n != 0
    ensures RoundRobin(files + [x], task, n)
      == RoundRobin(files, task, n) + (if PyMod(|files|, n) == task then [x] else [])
  {
    assert (files + [x])[..|files|] == files;
  }

  /** A task reads only listed files. */
  lemma {:induction false} RoundRobinListed<T>(files: seq<T>, task: int, n: int)
    requires n != 0
    ensures forall x :: x in RoundRobin(files, task, n) ==> x in files
    decreases |files|
  {
    if |files| > 0 {
      var last := |files| - 1;
      RoundRobinListed(files[..last], task, n);
      assert forall x :: x in files[..last] ==> x in files;
    }
  }

  /** The sum of a weight over a list. */
  function SumOf<T>(w: T -> int, s: seq<T>): int
  {
    if |s| == 0 then 0 else SumOf(w, s[..|s| - 1]) + w(s[|s| - 1])
  }

  lemma SumOfSnoc<T>(w: T -> int, s: seq<T>, x: T)
    ensures SumOf(w, s + [x]) == SumOf(w, s) + w(x)
  {
    assert (s + [x])[..|s|] == s;
  }

  /** The weights of the files read by tasks 0..k-1, added up. */
  function TasksSum<T>(w: T -> int, files: seq<T>, n: int, k: nat): int
    requires n != 0
  {
    if k == 0 then 0 else TasksSum(w, files, n, k - 1) + SumOf(w, RoundRobin(files, k - 1, n))
  }

  lemma {:induction false} TasksSumNone<T>(w: T -> int, files: seq<T>, n: int, k: nat)
    requires n != 0 && |files| == 0
    ensures TasksSum(w, files, n, k) == 0
  {
    if k > 0 {
      TasksSumNone(w, files, n, k - 1);
    }
  }

  lemma {:induction false} TasksSumSnoc<T>(w: T -> int, files: seq<T>, x: T, n: int, k: nat)
    requires n != 0
    ensures TasksSum(w, files + [x], n, k)
      == TasksSum(w, files, n, k) + (if 0 <= PyMod(|files|, n) < k then w(x) else 0)
  {
    if k > 0 {
      TasksSumSnoc(w, files, x, n, k - 1);
      var rr := RoundRobin(files, k - 1, n);
      RoundRobinSnoc(files, x, k - 1, n);
      if PyMod(|files|, n) == k - 1 {
        assert RoundRobin(files + [x], k - 1, n) == rr + [x];
        SumOfSnoc(w, rr, x);
      } else {
        assert RoundRobin(files + [x], k - 1, n) == rr;
      }
    }
  }

  /** Round robin, weighted: whatever each file weighs, tasks 0..n-1
      together weigh exactly the whole list, each file counted once. */
  lemma {:induction false} RoundRobinConserves<T>(w: T -> int, files: seq<T>, n: int)
    requires n >= 1
    ensures TasksSum(w, files, n, n) == SumOf(w, files)
    decreases |files|
  {
    if |files| == 0 {
      TasksSumNone(w, files, n, n);
    } else {
      var last := |files| - 1;
      var init := files[..last];
      RoundRobinConserves(w, init, n);
      assert files == init + [files[last]];
      TasksSumSnoc(w, init, files[last], n, n);
      SumOfSnoc(w, init, files[last]);
    }
  }

  /** Weight 1 for every copy of y, 0 for any other file. */
  function Copies<T(==)>(y: T): T -> int
  {
    f => if f == y then 1 else 0
  }

  lemma {:induction false} SumOfCopies<T>(y: T, s: seq<T>)
    ensures SumOf(Copies(y), s) == multiset(s)[y]
  {
    if |s| > 0 {
      var last := |s| - 1;
      SumOfCopies(y, s[..last]);
      assert s == s[..last] + [s[last]];
      assert multiset(s) == multiset(s[..last]) + multiset{s[last]};
    }
  }

  /** The multiset union of the files read by tasks 0..k-1. */
  function FilesOfTasks<T(==)>(files: seq<T>, n: int, k: nat): multiset<T>
    requires n != 0
  {
    if k == 0 then multiset{} else FilesOfTasks(files, n, k - 1) + multiset(RoundRobin(files, k - 1, n))
  }

  lemma FilesOfTasksStep<T>(files: seq<T>, n: int, k: nat, y: T)
    requires n != 0 && k > 0
    ensures FilesOfTasks(files, n, k)[y] == FilesOfTasks(files, n, k - 1)[y] + multiset(RoundRobin(files, k - 1, n))[y]
  {
  }

  lemma TasksSumStep<T>(w: T -> int, files: seq<T>, n: int, k: nat)
    requires n != 0 && k > 0
    ensures TasksSum(w, files, n, k) == TasksSum(w, files, n, k - 1) + SumOf(w, RoundRobin(files, k - 1, n))
  {
  }

  /** One more task adds its copies of y to both sides. */
  lemma FilesOfTasksCountStep<T>(files: seq<T>, n: int, k: nat, y: T)
    requires n != 0 && k > 0
    requires FilesOfTasks(files, n, k - 1)[y] == TasksSum(Copies(y), files, n, k - 1)
    ensures FilesOfTasks(files, n, k)[y] == TasksSum(Copies(y), files, n, k)
  {
    var rr := RoundRobin(files, k - 1, n);
    assert FilesOfTasks(files, n, k)[y] == FilesOfTasks(files, n, k - 1)[y] + multiset(rr)[y] by {
      FilesOfTasksStep(files, n, k, y);
    }
    assert TasksSum(Copies(y), files, n, k) == TasksSum(Copies(y), files, n, k - 1) + SumOf(Copies(y), rr) by {
      TasksSumStep(Copies(y), files, n, k);
    }
    assert SumOf(Copies(y), rr) == multiset(rr)[y] by {
      SumOfCopies(y, rr);
    }
  }

  lemma {:induction false} FilesOfTasksCount<T>(files: seq<T>, n: int, k: nat, y: T)
    requires n != 0
    ensures FilesOfTasks(files, n, k)[y] == TasksSum(Copies(y), files, n, k)
  {
    if k > 0 {
      FilesOfTasksCount(files, n, k - 1, y);
      FilesOfTasksCountStep(files, n, k, y);
    }
  }

  lemma SameCounts<T>(a: multiset<T>, b: multiset<T>)
    requires forall y :: a[y] == b[y]
    ensures a == b
  {
  }

  /** Round-robin totality and disjointness: with n >= 1 tasks, together
      the tasks read every file exactly as often as it occurs in the list. */
  lemma RoundRobinCoversFiles<T>(files: seq<T>, n: int)
    requires n >= 1
    ensures FilesOfTasks(files, n, n) == multiset(files)
  {
    forall y ensures FilesOfTasks(files, n, n)[y] == multiset(files)[y] {
      FilesOfTasksCount(files, n, n, y);
      RoundRobinConserves(Copies(y), files, n);
      SumOfCopies(y, files);
    }
    SameCounts(FilesOfTasks(files, n, n), multiset(files));
  }
}
