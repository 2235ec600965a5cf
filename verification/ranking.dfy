/**
 * Ranking the merged (key, count) items: a stable sort by count,
 * descending, as `sorted(..., key=count, reverse=True)` and
 * `Counter.most_common` do, or a sort by count descending and then key
 * ascending, as `sort(key=lambda x: (-x[1], x[0]))` does; then the first
 * min(K, n) items.
 */
module Ranking {
  import opened Seqs
  import opened Tables

  /** The two sort keys the scripts use. */
  datatype Order = ByCount | ByCountThenKey

  /** a must be ranked before b: a strictly higher count, or, when the key
      breaks ties, an equal count and a smaller key. */
  predicate Precedes(o: Order, a: Entry, b: Entry)
  {
    a.count > b.count || (o == ByCountThenKey && a.count == b.count && a.key < b.key)
  }

  /** No item is ranked after an item it must precede. For ByCount this
      says the counts are non-increasing. */
  predicate Sorted(o: Order, s: seq<Entry>)
  {
    forall i, j :: 0 <= i < j < |s| ==> !Precedes(o, s[j], s[i])
  }

  lemma PrecedesTransitive(o: Order, a: Entry, b: Entry, c: Entry)
    requires Precedes(o, a, b) && Precedes(o, b, c)
    ensures Precedes(o, a, c)
  {
  }

  lemma NotPrecedesTransitive(o: Order, a: Entry, b: Entry, c: Entry)
    requires !Precedes(o, a, b) && !Precedes(o, b, c)
    ensures !Precedes(o, a, c)
  {
  }

  lemma SortedTail(o: Order, s: seq<Entry>)
    requires Sorted(o, s) && |s| > 0
    ensures Sorted(o, s[1..])
    ensures forall y :: y in s[1..] ==> !Precedes(o, y, s[0])
  {
    forall y | y in s[1..] ensures !Precedes(o, y, s[0]) {
      var j :| 0 <= j < |s[1..]| && s[1..][j] == y;
      assert s[j + 1] == y;
    }
  }

  lemma SortedCons(o: Order, x: Entry, s: seq<Entry>)
    requires Sorted(o, s)
    requires forall y :: y in s ==> !Precedes(o, y, x)
    ensures Sorted(o, [x] + s)
  {
    var r := [x] + s;
    forall i, j | 0 <= i < j < |r| ensures !Precedes(o, r[j], r[i]) {
      assert r[j] == s[j - 1];
      if i > 0 {
        assert r[i] == s[i - 1];
      }
    }
  }

  /** x placed into a sorted sequence after every item it does not have to
      precede: a later item goes behind the earlier items it ties with. */
  function Insert(o: Order, x: Entry, s: seq<Entry>): (r: seq<Entry>)
    ensures multiset(r) == multiset(s) + multiset{x}
    ensures |r| == |s| + 1
  {
    if |s| == 0 then [x]
    else if Precedes(o, x, s[0]) then [x] + s
    else
      var r := [s[0]] + Insert(o, x, s[1..]);
      assert s == [s[0]] + s[1..];
      r
  }

  lemma {:induction false} InsertSorted(o: Order, x: Entry, s: seq<Entry>)
    requires Sorted(o, s)
    ensures Sorted(o, Insert(o, x, s))
  {
    if |s| == 0 {
    } else if Precedes(o, x, s[0]) {
      forall y | y in s ensures !Precedes(o, y, x) {
        var j :| 0 <= j < |s| && s[j] == y;
        if j > 0 {
          assert !Precedes(o, s[j], s[0]);
        }
      }
      SortedCons(o, x, s);
    } else {
      SortedTail(o, s);
      InsertSorted(o, x, s[1..]);
      var rest := Insert(o, x, s[1..]);
      forall y | y in rest ensures !Precedes(o, y, s[0]) {
        assert y in multiset(rest);
        assert y == x || y in multiset(s[1..]);
      }
      SortedCons(o, s[0], rest);
    }
  }

  /** The sort: insertion of each item, in input order, into the sorted
      items before it. */
  function Sort(o: Order, s: seq<Entry>): (r: seq<Entry>)
    ensures multiset(r) == multiset(s)
    ensures |r| == |s|
    ensures Sorted(o, r)
  {
    if |s| == 0 then []
    else
      var last := |s| - 1;
      var r := Insert(o, s[last], Sort(o, s[..last]));
      InsertSorted(o, s[last], Sort(o, s[..last]));
      assert s == s[..last] + [s[last]];
      r
  }

  lemma SortSnoc(o: Order, s: seq<Entry>)
    requires |s| > 0
    ensures Sort(o, s) == Insert(o, s[|s| - 1], Sort(o, s[..|s| - 1]))
  {
  }

  // ---------------------------------------------------------------------
  // Stability
  // ---------------------------------------------------------------------

  /** The items with count c, in order. */
  function WithCount(s: seq<Entry>, c: int): (r: seq<Entry>)
    ensures |r| <= |s|
  {
    if |s| == 0 then []
    else (if s[0].count == c then [s[0]] else []) + WithCount(s[1..], c)
  }

  lemma {:induction false} WithCountAppend(a: seq<Entry>, b: seq<Entry>, c: int)
    ensures WithCount(a + b, c) == WithCount(a, c) + WithCount(b, c)
  {
    if |a| == 0 {
      assert a + b == b;
    } else {
      var h := if a[0].count == c then [a[0]] else [];
      assert (a + b)[0] == a[0];
      assert (a + b)[1..] == a[1..] + b;
      WithCountAppend(a[1..], b, c);
      assert WithCount(a + b, c) == h + WithCount(a[1..] + b, c);
      assert WithCount(a, c) == h + WithCount(a[1..], c);
    }
  }

  lemma WithCountSingle(x: Entry, c: int)
    ensures WithCount([x], c) == if x.count == c then [x] else []
  {
    assert [x][1..] == [];
  }

  lemma {:induction false} WithCountNone(s: seq<Entry>, c: int)
    requires forall i :: 0 <= i < |s| ==> s[i].count < c
    ensures WithCount(s, c) == []
  {
    if |s| > 0 {
      WithCountNone(s[1..], c);
    }
  }

  lemma {:induction false} InsertStable(x: Entry, s: seq<Entry>, c: int)
    requires Sorted(ByCount, s)
    ensures WithCount(Insert(ByCount, x, s), c)
      == WithCount(s, c) + (if x.count == c then [x] else [])
  {
    if |s| == 0 {
    } else if Precedes(ByCount, x, s[0]) {
      assert forall i :: 0 <= i < |s| ==> s[i].count <= s[0].count;
      WithCountNone(s, x.count);
      assert ([x] + s)[1..] == s;
    } else {
      SortedTail(ByCount, s);
      InsertStable(x, s[1..], c);
      var r := [s[0]] + Insert(ByCount, x, s[1..]);
      assert r[1..] == Insert(ByCount, x, s[1..]);
    }
  }

  /** The count sort is stable: the items of any one count come out in the
      order they went in. Together with Sorted and the permutation this
      fixes the result completely. */
  lemma {:induction false} SortStable(s: seq<Entry>, c: int)
    ensures WithCount(Sort(ByCount, s), c) == WithCount(s, c)
  {
    if |s| > 0 {
      var last := |s| - 1;
      var init, x := s[..last], s[last];
      var h := if x.count == c then [x] else [];
      var sorted := Sort(ByCount, init);
      calc {
        WithCount(Sort(ByCount, s), c);
        { SortSnoc(ByCount, s); }
        WithCount(Insert(ByCount, x, sorted), c);
        { InsertStable(x, sorted, c); }
        WithCount(sorted, c) + h;
        { SortStable(init, c); }
        WithCount(init, c) + h;
        { assert s == init + [x];
          WithCountAppend(init, [x], c);
          WithCountSingle(x, c); }
        WithCount(s, c);
      }
    }
  }


  // ---------------------------------------------------------------------
  // Uniqueness under the (count desc, key asc) order
  // ---------------------------------------------------------------------

  /** No two items share a key. */
  predicate UniqueKeys(s: seq<Entry>)
  {
    forall i, j :: 0 <= i < j < |s| ==> s[i].key != s[j].key
  }

  /** Items drawn from a sequence with distinct keys have distinct keys. */
  lemma UniqueKeysOfPart(a: seq<Entry>, b: seq<Entry>)
    requires multiset(b) <= multiset(a) && UniqueKeys(a)
    ensures UniqueKeys(b)
  {
    forall i, j | 0 <= i < j < |b| ensures b[i].key != b[j].key {
      NoKeyTwice(a, b, i, j);
    }
  }

  lemma NoKeyTwice(a: seq<Entry>, b: seq<Entry>, i: nat, j: nat)
    requires multiset(b) <= multiset(a) && UniqueKeys(a) && i < j < |b|
    ensures b[i].key != b[j].key
  {
    assert b[i] in multiset(b) && b[j] in multiset(b);
    var i' :| 0 <= i' < |a| && a[i'] == b[i];
    var j' :| 0 <= j' < |a| && a[j'] == b[j];
    if b[i].key == b[j].key {
      // the same item of a, which a holds once and b would hold twice
      assert i' == j';
      TwiceInMultiset(b, i, j);
      UniqueCount(a, i');
      assert false;
    }
  }

  lemma TwiceInMultiset(b: seq<Entry>, i: nat, j: nat)
    requires i < j < |b| && b[i] == b[j]
    ensures multiset(b)[b[i]] >= 2
  {
    assert b == b[..j] + [b[j]] + b[j + 1..];
    assert b[..j][i] == b[i];
    assert multiset(b[..j])[b[i]] >= 1;
  }


  /** A dictionary's items have distinct keys. */
  lemma {:induction false} DistinctIsUnique(t: seq<Entry>)
    requires DistinctKeys(t)
    ensures UniqueKeys(t)
  {
    if |t| > 0 {
      DistinctIsUnique(t[1..]);
      forall j | 1 <= j < |t| ensures t[0].key != t[j].key {
        KeyAt(t[1..], j - 1);
      }
      forall i, j | 0 <= i < j < |t| ensures t[i].key != t[j].key {
        if i > 0 {
          assert t[i] == t[1..][i - 1] && t[j] == t[1..][j - 1];
        }
      }
    }
  }

  /** Items with pairwise different keys form a dictionary. */
  lemma {:induction false} UniqueIsDistinct(t: seq<Entry>)
    requires UniqueKeys(t)
    ensures DistinctKeys(t)
  {
    if |t| > 0 {
      assert UniqueKeys(t[1..]) by {
        forall i, j | 0 <= i < j < |t[1..]| ensures t[1..][i].key != t[1..][j].key {
          assert t[1..][i] == t[i + 1] && t[1..][j] == t[j + 1];
        }
      }
      UniqueIsDistinct(t[1..]);
      if t[0].key in Keys(t[1..]) {
        var e := EntryOf(t[1..], t[0].key);
        assert false;
      }
    }
  }

  /** An item of a sequence with distinct keys occurs in it exactly once. */
  lemma UniqueCount(a: seq<Entry>, i: nat)
    requires UniqueKeys(a) && i < |a|
    ensures multiset(a)[a[i]] == 1
  {
    assert a == a[..i] + [a[i]] + a[i + 1..];
    assert a[i] !in a[..i];
    assert forall j :: i + 1 <= j < |a| ==> a[j] != a[i];
    assert a[i] !in a[i + 1..];
    assert multiset(a[..i])[a[i]] == 0;
    assert multiset(a[i + 1..])[a[i]] == 0;
  }

  /** Under the (count desc, key asc) order a sequence with distinct keys
      has exactly one sorted arrangement: two sorted permutations of each
      other are equal. So the ranking is deterministic, whatever order the
      items arrive in. */
  lemma {:induction false} SortedUnique(a: seq<Entry>, b: seq<Entry>)
    requires multiset(a) == multiset(b) && UniqueKeys(a)
    requires Sorted(ByCountThenKey, a) && Sorted(ByCountThenKey, b)
    ensures a == b
    decreases |a|
  {
    assert |a| == |multiset(a)| == |multiset(b)| == |b|;
    if |a| > 0 {
      SameHead(a, b);
      SameTail(a, b);
      assert UniqueKeys(a[1..]) by {
        forall p, q | 0 <= p < q < |a[1..]| ensures a[1..][p].key != a[1..][q].key {
          assert a[1..][p] == a[p + 1] && a[1..][q] == a[q + 1];
        }
      }
      SortedTail(ByCountThenKey, a);
      SortedTail(ByCountThenKey, b);
      SortedUnique(a[1..], b[1..]);
      assert a == [a[0]] + a[1..];
      assert b == [b[0]] + b[1..];
    }
  }

  /** Two sorted arrangements of the same items with distinct keys start
      with the same item: each first item would otherwise have to precede
      the other. */
  lemma SameHead(a: seq<Entry>, b: seq<Entry>)
    requires multiset(a) == multiset(b) && UniqueKeys(a) && |a| > 0
    requires Sorted(ByCountThenKey, a) && Sorted(ByCountThenKey, b)
    ensures |b| > 0 && a[0] == b[0]
  {
    assert a[0] in multiset(b);
    assert b[0] in multiset(a);
    UniqueKeysOfPart(a, b);
    var i :| 0 <= i < |b| && b[i] == a[0];
    var j :| 0 <= j < |a| && a[j] == b[0];
    if a[0] != b[0] {
      assert false;
    }
  }

  lemma SameTail(a: seq<Entry>, b: seq<Entry>)
    requires multiset(a) == multiset(b) && |a| > 0 && |b| > 0 && a[0] == b[0]
    ensures multiset(a[1..]) == multiset(b[1..])
  {
    assert a == [a[0]] + a[1..];
    assert b == [b[0]] + b[1..];
    assert multiset(a) == multiset{a[0]} + multiset(a[1..]);
    assert multiset(b) == multiset{b[0]} + multiset(b[1..]);
    forall x ensures multiset(a[1..])[x] == multiset(b[1..])[x] {
      assert (multiset{a[0]} + multiset(a[1..]))[x] == (multiset{b[0]} + multiset(b[1..]))[x];
    }
  }


  // ---------------------------------------------------------------------
  // Top K
  // ---------------------------------------------------------------------

  /** An item of the sorted tail never precedes an item of the sorted
      head. */
  lemma SortedSplit(o: Order, sorted: seq<Entry>, n: nat)
    requires Sorted(o, sorted) && n <= |sorted|
    ensures forall x, i :: x in sorted[n..] && 0 <= i < n ==> !Precedes(o, x, sorted[i])
  {
    forall x, i | x in sorted[n..] && 0 <= i < n ensures !Precedes(o, x, sorted[i]) {
      var j :| 0 <= j < |sorted[n..]| && sorted[n..][j] == x;
      assert sorted[n + j] == x;
    }
  }

  lemma SortedPrefix(o: Order, s: seq<Entry>, n: nat)
    requires Sorted(o, s) && n <= |s|
    ensures Sorted(o, s[..n])
  {
    assert forall i :: 0 <= i < n ==> s[..n][i] == s[i];
  }

  lemma MultisetSplit(s: seq<Entry>, r: seq<Entry>, rest: seq<Entry>)
    requires multiset(s) == multiset(r + rest)
    ensures multiset(r) <= multiset(s)
    ensures multiset(s) - multiset(r) == multiset(rest)
  {
    assert multiset(r + rest) == multiset(r) + multiset(rest);
  }

  /** The first min(k, n) items of the ranking: sorted, drawn from the
      input, and no item left out has to precede an item kept. */
  function Top(o: Order, s: seq<Entry>, k: nat): (r: seq<Entry>)
    ensures |r| == Min(k, |s|)
    ensures Sorted(o, r)
    ensures multiset(r) <= multiset(s)
    ensures forall x, i :: x in multiset(s) - multiset(r) && 0 <= i < |r| ==> !Precedes(o, x, r[i])
  {
    var n := Min(k, |s|);
    PrefixOfSorted(o, s, n);
    Sort(o, s)[..n]
  }

  /** The first n items of the sorted sequence: sorted, drawn from the
      input, and followed only by items that do not precede them. */
  lemma PrefixOfSorted(o: Order, s: seq<Entry>, n: nat)
    requires n <= |s|
    ensures Sorted(o, Sort(o, s)[..n])
    ensures multiset(Sort(o, s)[..n]) <= multiset(s)
    ensures forall x, i :: x in multiset(s) - multiset(Sort(o, s)[..n]) && 0 <= i < n ==> !Precedes(o, x, Sort(o, s)[..n][i])
  {
    var sorted := Sort(o, s);
    SortedPrefix(o, sorted, n);
    PrefixLeftOut(o, s, n);
  }

  lemma PrefixLeftOut(o: Order, s: seq<Entry>, n: nat)
    requires n <= |s|
    ensures multiset(Sort(o, s)[..n]) <= multiset(s)
    ensures forall x, i :: x in multiset(s) - multiset(Sort(o, s)[..n]) && 0 <= i < n ==> !Precedes(o, x, Sort(o, s)[..n][i])
  {
    var sorted := Sort(o, s);
    PrefixRest(s, sorted, n);
    SortedSplit(o, sorted, n);
  }

  lemma PrefixRest(s: seq<Entry>, sorted: seq<Entry>, n: nat)
    requires multiset(sorted) == multiset(s) && n <= |sorted|
    ensures multiset(sorted[..n]) <= multiset(s)
    ensures multiset(s) - multiset(sorted[..n]) == multiset(sorted[n..])
  {
    assert sorted == sorted[..n] + sorted[n..];
    MultisetSplit(s, sorted[..n], sorted[n..]);
  }




  /** Items of equal count keep their relative order: those of count c in
      the top k are the first of those of count c in the input. */
  lemma TopStable(s: seq<Entry>, k: nat, c: int)
    ensures WithCount(Top(ByCount, s, k), c) <= WithCount(s, c)
  {
    var sorted := Sort(ByCount, s);
    var n := Min(k, |s|);
    assert sorted == sorted[..n] + sorted[n..];
    WithCountAppend(sorted[..n], sorted[n..], c);
    SortStable(s, c);
  }

  /** The top k of a dictionary: each item carries the dictionary's count
      for its key, no key is ranked twice, and every key left out would not
      have to be ranked before any key kept. */
  lemma TopOfTable(o: Order, t: Table, k: nat)
    requires DistinctKeys(t)
    ensures forall i :: 0 <= i < |Top(o, t, k)| ==> Top(o, t, k)[i].count == Get(t, Top(o, t, k)[i].key)
    ensures UniqueKeys(Top(o, t, k))
    ensures forall key, i :: key in Keys(t) && 0 <= i < |Top(o, t, k)| && key !in Keys(Top(o, t, k)) ==>
      !Precedes(o, Entry(key, Get(t, key)), Top(o, t, k)[i])
  {
    var top := Top(o, t, k);
    forall i | 0 <= i < |top| ensures top[i].count == Get(t, top[i].key) {
      assert top[i] in multiset(top);
      GetOfMember(t, top[i]);
    }
    DistinctIsUnique(t);
    UniqueKeysOfPart(t, top);
    forall key | key in Keys(t) && key !in Keys(top)
      ensures Entry(key, Get(t, key)) in multiset(t) - multiset(top)
    {
      var e := EntryOf(t, key);
      GetOfMember(t, e);
      if e in top {
        var j :| 0 <= j < |top| && top[j] == e;
        KeyAt(top, j);
      }
    }
  }
}
