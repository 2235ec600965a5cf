/** Generic facts about sequences used throughout the model. */
module Seqs {
  import opened Wrappers

  /** The concatenation, in order, of a sequence of sequences. */
  function Flatten<T>(ss: seq<seq<T>>): (r: seq<T>)
    ensures |ss| == 0 ==> r == []
  {
    if |ss| == 0 then [] else ss[0] + Flatten(ss[1..])
  }

  lemma {:induction false} FlattenAppend<T>(a: seq<seq<T>>, b: seq<seq<T>>)
    ensures Flatten(a + b) == Flatten(a) + Flatten(b)
  {
    if |a| == 0 {
      assert a + b == b;
    } else {
      assert (a + b)[0] == a[0];
      assert (a + b)[1..] == a[1..] + b;
      FlattenAppend(a[1..], b);
    }
  }

  /** Flattening a sequence extended by one more sequence appends it. */
  lemma FlattenSnoc<T>(ss: seq<seq<T>>, s: seq<T>)
    ensures Flatten(ss + [s]) == Flatten(ss) + s
  {
    FlattenAppend(ss, [s]);
    assert Flatten([s]) == s + Flatten([s][1..]);
    assert [s][1..] == [];
  }

  lemma FlattenPair<T>(a: seq<T>, b: seq<T>)
    ensures Flatten([a, b]) == a + b
  {
    FlattenSnoc([a], b);
    FlattenSnoc([], a);
    assert [a] == [] + [a];
    assert [a, b] == [a] + [b];
  }

  /** f applied to every element, in order. */
  function Map<A, B>(f: A -> B, s: seq<A>): (r: seq<B>)
    ensures |r| == |s|
    ensures forall i :: 0 <= i < |s| ==> r[i] == f(s[i])
  {
    seq(|s|, i requires 0 <= i < |s| => f(s[i]))
  }

  lemma MapAppend<A, B>(f: A -> B, a: seq<A>, b: seq<A>)
    ensures Map(f, a + b) == Map(f, a) + Map(f, b)
  {
  }

  /** Mapping the tail of a sequence gives the tail of its mapping. */
  lemma MapTail<A, B>(f: A -> B, s: seq<A>)
    requires |s| > 0
    ensures Map(f, s)[1..] == Map(f, s[1..])
  {
  }

  /** The values of the outcomes that are present, in order. */
  function Present<T>(rs: seq<Option<T>>): (r: seq<T>)
    ensures |r| <= |rs|
  {
    if |rs| == 0 then []
    else (if rs[0].Some? then [rs[0].value] else []) + Present(rs[1..])
  }

  lemma {:induction false} PresentAppend<T>(a: seq<Option<T>>, b: seq<Option<T>>)
    ensures Present(a + b) == Present(a) + Present(b)
  {
    if |a| == 0 {
      assert a + b == b;
    } else {
      var h := if a[0].Some? then [a[0].value] else [];
      assert (a + b)[0] == a[0];
      assert (a + b)[1..] == a[1..] + b;
      PresentAppend(a[1..], b);
      assert Present(a + b) == h + Present(a[1..] + b);
      assert Present(a) == h + Present(a[1..]);
    }
  }

  /** An element occurs in a non-empty sequence once more at its head
      than in its tail, if it is the head. */
  lemma CountHead<T>(s: seq<T>, y: T)
    requires |s| > 0
    ensures multiset(s)[y] == (if s[0] == y then 1 else 0) + multiset(s[1..])[y]
  {
    assert s == [s[0]] + s[1..];
  }

  /** Each value occurs among the present values exactly as often as the
      outcome carrying it occurs among the outcomes. */
  lemma {:induction false} PresentCount<T>(rs: seq<Option<T>>, x: T)
    ensures multiset(Present(rs))[x] == multiset(rs)[Some(x)]
  {
    if |rs| > 0 {
      var h := if rs[0].Some? then [rs[0].value] else [];
      PresentCount(rs[1..], x);
      assert multiset(Present(rs))[x] == multiset(h)[x] + multiset(Present(rs[1..]))[x] by {
        assert Present(rs) == h + Present(rs[1..]);
      }
      CountHead(rs, Some(x));
      assert multiset(h)[x] == if rs[0] == Some(x) then 1 else 0;
    }
  }

  /** When every outcome is present, all of them are kept, in order. */
  lemma {:induction false} PresentAll<T>(rs: seq<Option<T>>, t: seq<T>)
    requires |rs| == |t| && forall i :: 0 <= i < |rs| ==> rs[i] == Some(t[i])
    ensures Present(rs) == t
  {
    if |rs| > 0 {
      PresentAll(rs[1..], t[1..]);
      assert t == [t[0]] + t[1..];
    }
  }

  /** Without a present outcome there is nothing to keep, and one present
      outcome is enough to keep something. */
  lemma {:induction false} PresentEmpty<T>(rs: seq<Option<T>>)
    ensures Present(rs) == [] <==> forall i :: 0 <= i < |rs| ==> rs[i].None?
  {
    if |rs| > 0 {
      PresentEmpty(rs[1..]);
      if rs[0].None? {
        assert forall i :: 1 <= i < |rs| ==> rs[i] == rs[1..][i - 1];
      }
    }
  }

  /** An element that f maps to an absent outcome contributes nothing, and
      the elements around it are kept as if it were not there. */
  lemma MapPresentSkip<A, B>(f: A -> Option<B>, before: seq<A>, x: A, after: seq<A>)
    requires f(x).None?
    ensures Present(Map(f, before + [x] + after)) == Present(Map(f, before)) + Present(Map(f, after))
  {
    MapAppend(f, before + [x], after);
    MapAppend(f, before, [x]);
    var mb, mx, ma := Map(f, before), Map(f, [x]), Map(f, after);
    PresentAppend(mb + mx, ma);
    PresentAppend(mb, mx);
    assert Present(mx) == [];
  }

  /** Where the first of ts sits in a rearrangement us, and the rest of ts
      is a rearrangement of us without it. */
  lemma MatchFirst<T>(ts: seq<T>, us: seq<T>) returns (j: nat)
    requires |ts| > 0 && multiset(ts) == multiset(us)
    ensures j < |us| && us[j] == ts[0]
    ensures multiset(ts[1..]) == multiset(us[..j] + us[j + 1..])
  {
    var t := ts[0];
    assert t in multiset(us);
    j :| 0 <= j < |us| && us[j] == t;
    var rest := us[..j] + us[j + 1..];
    assert us == us[..j] + [t] + us[j + 1..];
    assert ts == [t] + ts[1..];
    assert multiset(ts) == multiset{t} + multiset(ts[1..]);
    assert multiset(us) == multiset(us[..j]) + multiset{t} + multiset(us[j + 1..]);
    assert multiset(rest) == multiset(us[..j]) + multiset(us[j + 1..]);
    forall x ensures multiset(ts[1..])[x] == multiset(rest)[x] {
      assert (multiset{t} + multiset(ts[1..]))[x] == (multiset{t} + multiset(rest))[x];
    }
  }

  /** Mapping a rearrangement gives a rearrangement of the mapped values. */
  lemma {:induction false} MapPermutation<A, B>(f: A -> B, a: seq<A>, b: seq<A>)
    requires multiset(a) == multiset(b)
    ensures multiset(Map(f, a)) == multiset(Map(f, b))
    decreases |a|
  {
    if |a| == 0 {
      assert |b| == |multiset(b)| == 0;
      assert Map(f, b) == [];
    } else {
      var j := MatchFirst(a, b);
      var rest := b[..j] + b[j + 1..];
      MapPermutation(f, a[1..], rest);
      assert a == [a[0]] + a[1..];
      MapAppend(f, [a[0]], a[1..]);
      assert b == b[..j] + [b[j]] + b[j + 1..];
      MapAppend(f, b[..j] + [b[j]], b[j + 1..]);
      MapAppend(f, b[..j], [b[j]]);
      MapAppend(f, b[..j], b[j + 1..]);
    }
  }

  /** Concatenating the same sequences in another order gives a
      rearrangement of the same elements. */
  lemma {:induction false} FlattenPermutation<T>(ts: seq<seq<T>>, us: seq<seq<T>>)
    requires multiset(ts) == multiset(us)
    ensures multiset(Flatten(ts)) == multiset(Flatten(us))
    decreases |ts|
  {
    if |ts| == 0 {
      assert |us| == |multiset(us)| == 0;
    } else {
      var j := MatchFirst(ts, us);
      var rest := us[..j] + us[j + 1..];
      FlattenPermutation(ts[1..], rest);
      assert us == us[..j] + [us[j]] + us[j + 1..];
      FlattenAppend(us[..j] + [us[j]], us[j + 1..]);
      FlattenSnoc(us[..j], us[j]);
      FlattenAppend(us[..j], us[j + 1..]);
    }
  }

  /** Rearrangements joined are a rearrangement of the joined sequences. */
  lemma AppendPermutation<T>(a: seq<T>, b: seq<T>, c: seq<T>, d: seq<T>)
    requires multiset(a) == multiset(c) && multiset(b) == multiset(d)
    ensures multiset(a + b) == multiset(c + d)
  {
  }

  /** A non-empty sequence is its front followed by its last element. */
  lemma InitLast<T>(s: seq<T>)
    requires |s| > 0
    ensures s == s[..|s| - 1] + [s[|s| - 1]]
  {
  }

  /** Two adjacent slices joined are the slice that spans them. */
  lemma SliceJoin<T>(s: seq<T>, lo: int, hi: int)
    requires 0 <= lo <= hi <= |s|
    ensures s[..lo] + s[lo..hi] == s[..hi]
    ensures s[..lo] + s[lo..] == s
  {
  }

  function Min(a: int, b: int): int
  {
    if a <= b then a else b
  }
}
