/**
 * Count tables: the integer -> count dictionaries every phase builds
 * (defaultdict(int), Counter, a plain dict). A table is the sequence of its
 * items in insertion order, which is the order Python iterates, serialises
 * and stably sorts them in. Looking up an absent key gives 0, as in a
 * defaultdict or Counter.
 */
module Tables {
  import opened Seqs

  datatype Entry = Entry(key: int, count: int)

  type Table = seq<Entry>

  function Keys(t: seq<Entry>): set<int>
  {
    if |t| == 0 then {} else {t[0].key} + Keys(t[1..])
  }

  /** No key occurs twice: the shape of every dictionary. */
  predicate DistinctKeys(t: seq<Entry>)
  {
    |t| == 0 || (t[0].key !in Keys(t[1..]) && DistinctKeys(t[1..]))
  }

  predicate Positive(t: seq<Entry>)
  {
    forall i :: 0 <= i < |t| ==> t[i].count >= 1
  }

  /** The count stored for k (its first entry), or 0 when k is absent. */
  function Get(t: seq<Entry>, k: int): (v: int)
    ensures k !in Keys(t) ==> v == 0
  {
    if |t| == 0 then 0 else if t[0].key == k then t[0].count else Get(t[1..], k)
  }

  /** The sum of all counts. */
  function Sum(t: seq<Entry>): int
  {
    if |t| == 0 then 0 else t[0].count + Sum(t[1..])
  }

  /** The sum of the counts of all entries with key k: the reference meaning
      of "k's count" in a sequence of entries that may repeat keys. */
  function KeyTotal(es: seq<Entry>, k: int): int
  {
    if |es| == 0 then 0 else (if es[0].key == k then es[0].count else 0) + KeyTotal(es[1..], k)
  }

  lemma {:induction false} KeyAt(t: seq<Entry>, i: nat)
    requires i < |t|
    ensures t[i].key in Keys(t)
  {
    if i > 0 {
      KeyAt(t[1..], i - 1);
    }
  }

  lemma {:induction false} KeysAppend(a: seq<Entry>, b: seq<Entry>)
    ensures Keys(a + b) == Keys(a) + Keys(b)
  {
    if |a| == 0 {
      assert a + b == b;
    } else {
      assert (a + b)[1..] == a[1..] + b;
      KeysAppend(a[1..], b);
    }
  }

  lemma {:induction false} SumAppend(a: seq<Entry>, b: seq<Entry>)
    ensures Sum(a + b) == Sum(a) + Sum(b)
  {
    if |a| == 0 {
      assert a + b == b;
    } else {
      assert (a + b)[1..] == a[1..] + b;
      SumAppend(a[1..], b);
    }
  }

  lemma {:induction false} KeyTotalAppend(a: seq<Entry>, b: seq<Entry>, k: int)
    ensures KeyTotal(a + b, k) == KeyTotal(a, k) + KeyTotal(b, k)
  {
    if |a| == 0 {
      assert a + b == b;
    } else {
      assert (a + b)[1..] == a[1..] + b;
      KeyTotalAppend(a[1..], b, k);
    }
  }

  lemma {:induction false} KeyTotalAbsent(es: seq<Entry>, k: int)
    requires k !in Keys(es)
    ensures KeyTotal(es, k) == 0
  {
    if |es| > 0 {
      KeyTotalAbsent(es[1..], k);
    }
  }

  /** In a dictionary a key's stored count is the total of its entries. */
  lemma {:induction false} GetIsKeyTotal(t: seq<Entry>, k: int)
    requires DistinctKeys(t)
    ensures Get(t, k) == KeyTotal(t, k)
  {
    if |t| > 0 {
      if t[0].key == k {
        KeyTotalAbsent(t[1..], k);
      } else {
        GetIsKeyTotal(t[1..], k);
      }
    }
  }

  /** In a dictionary every item's count is the count stored for its key. */
  lemma {:induction false} GetOfMember(t: seq<Entry>, e: Entry)
    requires DistinctKeys(t) && e in t
    ensures Get(t, e.key) == e.count
  {
    if t[0] != e {
      assert e in t[1..];
      var j :| 0 <= j < |t[1..]| && t[1..][j] == e;
      KeyAt(t[1..], j);
      GetOfMember(t[1..], e);
    }
  }

  /** A key of a table is the key of one of its items. */
  lemma {:induction false} EntryOf(t: seq<Entry>, k: int) returns (e: Entry)
    requires k in Keys(t)
    ensures e in t && e.key == k
  {
    if t[0].key == k {
      e := t[0];
    } else {
      e := EntryOf(t[1..], k);
    }
  }

  /** A dictionary has as many items as distinct keys. */
  lemma {:induction false} DistinctKeysCount(t: seq<Entry>)
    requires DistinctKeys(t)
    ensures |Keys(t)| == |t|
  {
    if |t| > 0 {
      DistinctKeysCount(t[1..]);
    }
  }

  lemma {:induction false} DistinctAppend(a: seq<Entry>, b: seq<Entry>)
    requires DistinctKeys(a) && DistinctKeys(b) && Keys(a) !! Keys(b)
    ensures DistinctKeys(a + b)
  {
    if |a| > 0 {
      assert (a + b)[1..] == a[1..] + b;
      DistinctAppend(a[1..], b);
      KeysAppend(a[1..], b);
    } else {
      assert a + b == b;
    }
  }

  lemma {:induction false} GetAppend(a: seq<Entry>, b: seq<Entry>, k: int)
    ensures Get(a + b, k) == if k in Keys(a) then Get(a, k) else Get(b, k)
  {
    if |a| == 0 {
      assert a + b == b;
    } else {
      assert (a + b)[1..] == a[1..] + b;
      GetAppend(a[1..], b, k);
    }
  }

  // ---------------------------------------------------------------------
  // Updates
  // ---------------------------------------------------------------------

  /** `t[k] += c` on a defaultdict(int) or Counter: an existing key keeps
      its place, a new key is appended. */
  function Bump(t: Table, k: int, c: int): (r: Table)
    ensures forall j :: Get(r, j) == Get(t, j) + (if j == k then c else 0)
    ensures Keys(r) == Keys(t) + {k}
    ensures DistinctKeys(t) ==> DistinctKeys(r)
    ensures Positive(t) && c >= 1 ==> Positive(r)
    ensures Sum(r) == Sum(t) + c
    ensures k !in Keys(t) ==> r == t + [Entry(k, c)]
  {
    if |t| == 0 then [Entry(k, c)]
    else if t[0].key == k then
      var r := [Entry(k, t[0].count + c)] + t[1..];
      assert r[1..] == t[1..];
      r
    else
      var b := Bump(t[1..], k, c);
      var r := [t[0]] + b;
      assert r[0] == t[0] && r[1..] == b;
      assert Keys(r) == {t[0].key} + Keys(b);
      assert Sum(r) == t[0].count + Sum(b);
      assert Positive(t) && c >= 1 ==> Positive(r) by {
        if Positive(t) && c >= 1 {
          assert Positive(t[1..]) by {
            forall i | 0 <= i < |t[1..]| ensures t[1..][i].count >= 1 {
              assert t[1..][i] == t[i + 1];
            }
          }
          forall i | 0 <= i < |r| ensures r[i].count >= 1 {
            if i > 0 {
              assert r[i] == b[i - 1];
            }
          }
        }
      }
      assert k !in Keys(t) ==> r == t + [Entry(k, c)] by {
        if k !in Keys(t) {
          assert t == [t[0]] + t[1..];
        }
      }
      r
  }

  /** Adding entries one after another, as the count-summing loops do. The
      result holds, for every key, its old count plus the key's total over
      the entries. */
  function AddAll(t: Table, es: seq<Entry>): (r: Table)
    ensures forall k :: Get(r, k) == Get(t, k) + KeyTotal(es, k)
    ensures Keys(r) == Keys(t) + Keys(es)
    ensures DistinctKeys(t) ==> DistinctKeys(r)
    ensures Positive(t) && Positive(es) ==> Positive(r)
    ensures Sum(r) == Sum(t) + Sum(es)
    decreases |es|
  {
    if |es| == 0 then t
    else
      var r := AddAll(Bump(t, es[0].key, es[0].count), es[1..]);
      assert Positive(es) ==> Positive(es[1..]) by {
        if Positive(es) {
          forall i | 0 <= i < |es[1..]| ensures es[1..][i].count >= 1 {
            assert es[1..][i] == es[i + 1];
          }
        }
      }
      r
  }

  /** `t[k] = c` on a dict: the new count replaces the old one, in place. */
  function Put(t: Table, k: int, c: int): (r: Table)
    ensures forall j :: Get(r, j) == if j == k then c else Get(t, j)
    ensures Keys(r) == Keys(t) + {k}
    ensures DistinctKeys(t) ==> DistinctKeys(r)
    ensures k !in Keys(t) ==> r == t + [Entry(k, c)]
  {
    if |t| == 0 then [Entry(k, c)]
    else if t[0].key == k then
      var r := [Entry(k, c)] + t[1..];
      assert r[1..] == t[1..];
      r
    else
      var r := [t[0]] + Put(t[1..], k, c);
      assert r[1..] == Put(t[1..], k, c);
      assert k !in Keys(t) ==> r == t + [Entry(k, c)] by {
        if k !in Keys(t) {
          assert t == [t[0]] + t[1..];
        }
      }
      r
  }

  /** The count of the last entry with key k. */
  function LastCount(es: seq<Entry>, k: int): int
    requires k in Keys(es)
  {
    if k in Keys(es[1..]) then LastCount(es[1..], k) else es[0].count
  }

  /** Storing entries one after another, as the report's merge does: each
      key ends with the count of its last entry, and nothing is summed. */
  function PutAll(t: Table, es: seq<Entry>): (r: Table)
    ensures forall k :: Get(r, k) == if k in Keys(es) then LastCount(es, k) else Get(t, k)
    ensures Keys(r) == Keys(t) + Keys(es)
    ensures DistinctKeys(t) ==> DistinctKeys(r)
    decreases |es|
  {
    if |es| == 0 then t else PutAll(Put(t, es[0].key, es[0].count), es[1..])
  }

  /** Storing entries whose keys are distinct and new leaves the old table
      followed by the entries: over disjoint inputs the merge is a union. */
  lemma {:induction false} PutAllFresh(t: Table, es: seq<Entry>)
    requires Keys(t) !! Keys(es) && DistinctKeys(es)
    ensures PutAll(t, es) == t + es
    decreases |es|
  {
    if |es| == 0 {
      assert t + es == t;
    } else {
      var e := es[0];
      var rest := es[1..];
      assert e.key !in Keys(t) && e.key !in Keys(rest);
      assert Keys(t + [e]) == Keys(t) + {e.key} by { KeysAppend(t, [e]); }
      assert Keys(t + [e]) !! Keys(rest);
      calc {
        PutAll(t, es);
        PutAll(Put(t, e.key, e.count), rest);
        PutAll(t + [e], rest);
        { PutAllFresh(t + [e], rest); }
        t + [e] + rest;
        { assert es == [e] + rest; }
        t + es;
      }
    }
  }

  // ---------------------------------------------------------------------
  // Tallies
  // ---------------------------------------------------------------------

  /** One entry of count 1 per value, as `counts[v] += 1` sees them. */
  function Units(vals: seq<int>): (es: seq<Entry>)
    ensures |es| == |vals|
  {
    if |vals| == 0 then [] else [Entry(vals[0], 1)] + Units(vals[1..])
  }

  lemma {:induction false} UnitsKeyTotal(vals: seq<int>, k: int)
    ensures KeyTotal(Units(vals), k) == multiset(vals)[k]
  {
    if |vals| > 0 {
      var h := if vals[0] == k then 1 else 0;
      UnitsKeyTotal(vals[1..], k);
      assert Units(vals)[0] == Entry(vals[0], 1) && Units(vals)[1..] == Units(vals[1..]);
      assert KeyTotal(Units(vals), k) == h + KeyTotal(Units(vals[1..]), k);
      assert vals == [vals[0]] + vals[1..];
      assert multiset(vals) == multiset{vals[0]} + multiset(vals[1..]);
      assert multiset(vals)[k] == h + multiset(vals[1..])[k];
    }
  }

  lemma {:induction false} UnitsKeys(vals: seq<int>)
    ensures Keys(Units(vals)) == set v | v in vals
  {
    if |vals| > 0 {
      UnitsKeys(vals[1..]);
      assert Units(vals)[1..] == Units(vals[1..]);
      assert vals == [vals[0]] + vals[1..];
      assert (set v | v in vals) == {vals[0]} + (set v | v in vals[1..]);
    }
  }

  lemma {:induction false} UnitsSumPositive(vals: seq<int>)
    ensures Sum(Units(vals)) == |vals|
    ensures Positive(Units(vals))
  {
    if |vals| > 0 {
      UnitsSumPositive(vals[1..]);
      assert Units(vals)[1..] == Units(vals[1..]);
    }
  }

  /** The frequency table of a sequence of values: the count of every key is
      the number of times it occurs, keys are exactly the values seen, and
      the counts add up to the number of values. */
  function Tally(vals: seq<int>): (t: Table)
    ensures forall k :: Get(t, k) == multiset(vals)[k]
    ensures Keys(t) == set v | v in vals
    ensures DistinctKeys(t) && Positive(t)
    ensures Sum(t) == |vals|
  {
    var t := AddAll([], Units(vals));
    forall k ensures Get(t, k) == multiset(vals)[k] {
      UnitsKeyTotal(vals, k);
    }
    UnitsKeys(vals);
    UnitsSumPositive(vals);
    t
  }

  // ---------------------------------------------------------------------
  // Many tables
  // ---------------------------------------------------------------------

  /** The sum of all counts of all tables. */
  function TotalOf(ts: seq<Table>): int
  {
    if |ts| == 0 then 0 else Sum(ts[0]) + TotalOf(ts[1..])
  }

  /** The sum over all tables of each one's entries for k. */
  function KeyTotalOf(ts: seq<Table>, k: int): int
  {
    if |ts| == 0 then 0 else KeyTotal(ts[0], k) + KeyTotalOf(ts[1..], k)
  }

  /** The union of the keys of all tables. */
  function KeysOf(ts: seq<Table>): set<int>
  {
    if |ts| == 0 then {} else Keys(ts[0]) + KeysOf(ts[1..])
  }

  lemma {:induction false} FlattenTables(ts: seq<Table>, k: int)
    ensures Sum(Flatten(ts)) == TotalOf(ts)
    ensures KeyTotal(Flatten(ts), k) == KeyTotalOf(ts, k)
    ensures Keys(Flatten(ts)) == KeysOf(ts)
  {
    if |ts| > 0 {
      FlattenTables(ts[1..], k);
      SumAppend(ts[0], Flatten(ts[1..]));
      KeyTotalAppend(ts[0], Flatten(ts[1..]), k);
      KeysAppend(ts[0], Flatten(ts[1..]));
    }
  }

  lemma {:induction false} TotalsAppend(a: seq<Table>, b: seq<Table>, k: int)
    ensures TotalOf(a + b) == TotalOf(a) + TotalOf(b)
    ensures KeyTotalOf(a + b, k) == KeyTotalOf(a, k) + KeyTotalOf(b, k)
  {
    if |a| == 0 {
      assert a + b == b;
    } else {
      assert (a + b)[1..] == a[1..] + b;
      TotalsAppend(a[1..], b, k);
    }
  }

  /** Taking one table out of the middle of a sequence removes exactly its
      contribution to the totals. */
  lemma TotalsWithout(us: seq<Table>, j: nat, k: int)
    requires j < |us|
    ensures TotalOf(us) == Sum(us[j]) + TotalOf(us[..j] + us[j + 1..])
    ensures KeyTotalOf(us, k) == KeyTotal(us[j], k) + KeyTotalOf(us[..j] + us[j + 1..], k)
  {
    var tail := [us[j]] + us[j + 1..];
    assert us == us[..j] + tail;
    TotalsAppend(us[..j], tail, k);
    TotalsAppend(us[..j], us[j + 1..], k);
    assert tail[1..] == us[j + 1..];
  }

  lemma EntriesWithout(us: seq<Entry>, j: nat, k: int)
    requires j < |us|
    ensures Sum(us) == us[j].count + Sum(us[..j] + us[j + 1..])
    ensures KeyTotal(us, k) == KeyTotal([us[j]], k) + KeyTotal(us[..j] + us[j + 1..], k)
    ensures Keys(us) == {us[j].key} + Keys(us[..j] + us[j + 1..])
  {
    var tail := [us[j]] + us[j + 1..];
    assert us == us[..j] + tail;
    SumAppend(us[..j], tail);
    SumAppend(us[..j], us[j + 1..]);
    KeyTotalAppend(us[..j], tail, k);
    KeyTotalAppend(us[..j], us[j + 1..], k);
    KeysAppend(us[..j], tail);
    KeysAppend(us[..j], us[j + 1..]);
    assert tail[1..] == us[j + 1..];
  }

  /** Sums of items do not depend on their order: any rearrangement of the
      same items has the same keys, the same total for every key and the
      same grand total. */
  lemma {:induction false} EntriesPermutation(a: seq<Entry>, b: seq<Entry>, k: int)
    requires multiset(a) == multiset(b)
    ensures Sum(a) == Sum(b)
    ensures KeyTotal(a, k) == KeyTotal(b, k)
    ensures Keys(a) == Keys(b)
    decreases |a|
  {
    if |a| == 0 {
      assert |b| == |multiset(b)| == 0;
    } else {
      var j := MatchFirst(a, b);
      EntriesPermutation(a[1..], b[..j] + b[j + 1..], k);
      EntriesWithout(b, j, k);
    }
  }

  /** In a dictionary an item occurs once when its key is stored with its
      count, and not at all otherwise. */
  lemma {:induction false} DistinctMultiplicity(t: seq<Entry>, x: Entry)
    requires DistinctKeys(t)
    ensures multiset(t)[x] == if x.key in Keys(t) && Get(t, x.key) == x.count then 1 else 0
  {
    if |t| > 0 {
      DistinctMultiplicity(t[1..], x);
      assert t == [t[0]] + t[1..];
      assert multiset(t)[x] == multiset([t[0]])[x] + multiset(t[1..])[x];
    }
  }

  /** Two dictionaries with the same keys and the same stored counts hold
      the same items, whatever order they were inserted in. */
  lemma SameItems(a: Table, b: Table)
    requires DistinctKeys(a) && DistinctKeys(b) && Keys(a) == Keys(b)
    requires forall k :: Get(a, k) == Get(b, k)
    ensures multiset(a) == multiset(b)
  {
    forall x ensures multiset(a)[x] == multiset(b)[x] {
      DistinctMultiplicity(a, x);
      DistinctMultiplicity(b, x);
    }
  }

  /** Summing tables does not depend on their order: any rearrangement of
      the same tables has the same grand total and the same total for every
      key. */
  lemma {:induction false} TotalsPermutation(ts: seq<Table>, us: seq<Table>, k: int)
    requires multiset(ts) == multiset(us)
    ensures TotalOf(ts) == TotalOf(us)
    ensures KeyTotalOf(ts, k) == KeyTotalOf(us, k)
    decreases |ts|
  {
    if |ts| == 0 {
      assert |us| == |multiset(us)| == 0;
    } else {
      var j := MatchFirst(ts, us);
      TotalsPermutation(ts[1..], us[..j] + us[j + 1..], k);
      TotalsWithout(us, j, k);
    }
  }
}
