/**
  The observable behaviour of `collections.Counter` as the analyzer uses it:
  looking up a key (`counter[x]`, 0 for an absent key), the keys in order of
  first insertion, and `most_common(n)`, which ranks (key, count) pairs by
  descending count and keeps first-insertion order among equal counts.
*/
module Counting {

  /** Number of occurrences of x in s, i.e. `Counter(s)[x]`. */
  function Count<T(==)>(s: seq<T>, x: T): (n: nat)
    ensures n <= |s|
    ensures n == 0 <==> x !in s
  {
    if s == [] then 0
    else
      assert s == s[..|s| - 1] + [s[|s| - 1]];
      Count(s[..|s| - 1], x) + (if s[|s| - 1] == x then 1 else 0)
  }

  /** Count agrees with the multiplicity in the multiset of s. */
  lemma {:induction false} CountIsMultiplicity<T>(s: seq<T>, x: T)
    ensures Count(s, x) == multiset(s)[x]
  {
    if s != [] {
      CountIsMultiplicity(s[..|s| - 1], x);
      assert s == s[..|s| - 1] + [s[|s| - 1]];
    }
  }

  /** Counting distributes over concatenation. */
  lemma {:induction false} CountAppend<T>(a: seq<T>, b: seq<T>, x: T)
    ensures Count(a + b, x) == Count(a, x) + Count(b, x)
  {
    if b == [] {
      assert a + b == a;
    } else {
      CountAppend(a, b[..|b| - 1], x);
      assert (a + b)[..|a + b| - 1] == a + b[..|b| - 1];
    }
  }

  predicate NoDuplicates<T(==)>(s: seq<T>)
  {
    forall i, j :: 0 <= i < j < |s| ==> s[i] != s[j]
  }

  /** The keys of `Counter(s)` in insertion order: each element once, where it first appears. */
  function Distinct<T(==)>(s: seq<T>): (d: seq<T>)
    ensures forall i :: 0 <= i < |d| ==> d[i] in s
    ensures forall i :: 0 <= i < |s| ==> s[i] in d
    ensures NoDuplicates(d)
  {
    if s == [] then []
    else
      var d := Distinct(s[..|s| - 1]);
      assert s == s[..|s| - 1] + [s[|s| - 1]];
      if s[|s| - 1] in d then d else d + [s[|s| - 1]]
  }

  /** Position of the first occurrence of x in s. */
  function FirstIndex<T(==)>(s: seq<T>, x: T): (i: nat)
    requires x in s
    ensures i < |s| && s[i] == x && x !in s[..i]
  {
    if s[0] == x then 0
    else
      var i := FirstIndex(s[1..], x);
      assert s[..i + 1] == [s[0]] + s[1..][..i];
      i + 1
  }

  lemma FirstIndexUnique<T>(s: seq<T>, x: T, i: nat)
    requires i < |s| && s[i] == x && x !in s[..i]
    ensures FirstIndex(s, x) == i
  {
    var j := FirstIndex(s, x);
    assert s[..j] == s[..i] || j > i;
  }

  lemma FirstIndexSnoc<T>(s: seq<T>, y: T, x: T)
    requires x in s
    ensures FirstIndex(s + [y], x) == FirstIndex(s, x)
  {
    var i := FirstIndex(s, x);
    assert (s + [y])[..i] == s[..i];
    FirstIndexUnique(s + [y], x, i);
  }

  /** The keys come out in the order of their first appearance in s. */
  lemma {:induction false} DistinctInFirstAppearanceOrder<T>(s: seq<T>)
    ensures forall i, j :: 0 <= i < j < |Distinct(s)| ==>
      FirstIndex(s, Distinct(s)[i]) < FirstIndex(s, Distinct(s)[j])
  {
    if s != [] {
      var s', y := s[..|s| - 1], s[|s| - 1];
      assert s == s' + [y];
      DistinctInFirstAppearanceOrder(s');
      var d' := Distinct(s');
      forall x | x in s'
        ensures FirstIndex(s, x) == FirstIndex(s', x) && FirstIndex(s', x) < |s'|
      {
        FirstIndexSnoc(s', y, x);
      }
      if y !in d' {
        FirstIndexUnique(s, y, |s'|);
        var d := Distinct(s);
        assert d == d' + [y];
        forall i, j | 0 <= i < j < |d|
          ensures FirstIndex(s, d[i]) < FirstIndex(s, d[j])
        {
          assert d[i] == d'[i] && d[i] in s';
          if j < |d'| {
            assert d[j] == d'[j];
          }
        }
      }
    }
  }

  lemma CountOfUnique<T>(d: seq<T>, x: T)
    requires NoDuplicates(d) && x in d
    ensures Count(d, x) == 1
  {
    var i :| 0 <= i < |d| && d[i] == x;
    assert d == d[..i] + [x] + d[i + 1..];
    CountAppend(d[..i] + [x], d[i + 1..], x);
    CountAppend(d[..i], [x], x);
    assert x !in d[..i] && x !in d[i + 1..] by {
      forall k | 0 <= k < |d| && k != i ensures d[k] != x { }
    }
  }

  /** Sum of the counts of the given keys. */
  function SumCounts<T(==)>(s: seq<T>, keys: seq<T>): nat
  {
    if keys == [] then 0
    else SumCounts(s, keys[..|keys| - 1]) + Count(s, keys[|keys| - 1])
  }

  lemma {:induction false} SumCountsSnoc<T>(s: seq<T>, y: T, keys: seq<T>)
    ensures SumCounts(s + [y], keys) == SumCounts(s, keys) + Count(keys, y)
  {
    if keys != [] {
      SumCountsSnoc(s, y, keys[..|keys| - 1]);
      CountAppend(s, [y], keys[|keys| - 1]);
    }
  }

  lemma {:induction false} SumCountsSplit<T>(s: seq<T>, keys: seq<T>, k: T)
    ensures SumCounts(s, keys + [k]) == SumCounts(s, keys) + Count(s, k)
  {
    assert (keys + [k])[..|keys|] == keys;
  }

  /** The counts of all keys of `Counter(s)` add up to the number of elements. */
  lemma {:induction false} SumCountsDistinct<T>(s: seq<T>)
    ensures SumCounts(s, Distinct(s)) == |s|
  {
    if s != [] {
      var s', y := s[..|s| - 1], s[|s| - 1];
      assert s == s' + [y];
      var d' := Distinct(s');
      SumCountsDistinct(s');
      SumCountsSnoc(s', y, d');
      if y in d' {
        CountOfUnique(d', y);
      } else {
        SumCountsSplit(s, d', y);
        CountAppend(s', [y], y);
      }
    }
  }

  /** `Counter(s).items()`: each key with its count, in insertion order. */
  function Tally<T(==)>(s: seq<T>): seq<(T, nat)>
  {
    var d := Distinct(s);
    seq(|d|, i requires 0 <= i < |d| => (d[i], Count(s, d[i])))
  }

  /** Places p after every pair whose count is at least p's. */
  function Insert<T>(r: seq<(T, nat)>, p: (T, nat)): seq<(T, nat)>
  {
    if r == [] then [p]
    else if r[0].1 >= p.1 then [r[0]] + Insert(r[1..], p)
    else [p] + r
  }

  /** `sorted(pairs, key=count, reverse=True)`: a stable sort by descending count. */
  function SortByCountDesc<T>(ps: seq<(T, nat)>): seq<(T, nat)>
  {
    if ps == [] then [] else Insert(SortByCountDesc(ps[..|ps| - 1]), ps[|ps| - 1])
  }

  function Min(a: int, b: int): int
  {
    if a <= b then a else b
  }

  /** `Counter(s).most_common(n)`: the first n of the ranked pairs, none when n <= 0. */
  function MostCommon<T(==)>(s: seq<T>, n: int): seq<(T, nat)>
  {
    var sorted := SortByCountDesc(Tally(s));
    if n <= 0 then [] else sorted[..Min(n, |sorted|)]
  }

  // ---- The ranking that most_common produces ----

  lemma TallyAt<T>(s: seq<T>, k: nat)
    requires k < |Distinct(s)|
    ensures |Tally(s)| == |Distinct(s)|
    ensures Tally(s)[k] == (Distinct(s)[k], Count(s, Distinct(s)[k]))
  {
  }

  lemma {:induction false} InsertPermutes<T>(r: seq<(T, nat)>, p: (T, nat))
    ensures multiset(Insert(r, p)) == multiset(r) + multiset{p}
  {
    if r != [] && r[0].1 >= p.1 {
      InsertPermutes(r[1..], p);
      assert r == [r[0]] + r[1..];
    }
  }

  /** Every element of Insert(r, p) is p or an element of r. */
  lemma InsertMembers<T>(r: seq<(T, nat)>, p: (T, nat), k: nat)
    requires k < |Insert(r, p)|
    ensures Insert(r, p)[k] == p || exists m :: 0 <= m < |r| && r[m] == Insert(r, p)[k]
  {
    InsertPermutes(r, p);
    var t := Insert(r, p);
    assert t[k] in multiset(t);
    if t[k] != p {
      assert t[k] in multiset(r);
    }
  }

  /** Every pair is an element of s with its true count. */
  ghost predicate CountedIn<T>(s: seq<T>, r: seq<(T, nat)>)
  {
    forall i :: 0 <= i < |r| ==> r[i].0 in s && r[i].1 == Count(s, r[i].0)
  }

  /** x ranks above y: a higher count, or the same count and an earlier first appearance. */
  ghost predicate Precedes<T>(s: seq<T>, x: T, y: T)
  {
    x in s && y in s &&
    (Count(s, x) > Count(s, y) || (Count(s, x) == Count(s, y) && FirstIndex(s, x) < FirstIndex(s, y)))
  }

  ghost predicate RankedIn<T>(s: seq<T>, r: seq<(T, nat)>)
  {
    forall i, j :: 0 <= i < j < |r| ==> Precedes(s, r[i].0, r[j].0)
  }

  lemma InsertCounted<T>(s: seq<T>, r: seq<(T, nat)>, p: (T, nat))
    requires CountedIn(s, r)
    requires p.0 in s && p.1 == Count(s, p.0)
    ensures CountedIn(s, Insert(r, p))
  {
    forall k | 0 <= k < |Insert(r, p)|
      ensures Insert(r, p)[k].0 in s && Insert(r, p)[k].1 == Count(s, Insert(r, p)[k].0)
    {
      InsertMembers(r, p, k);
    }
  }

  /** The head of a ranked list that p does not outrank precedes everything Insert(r[1..], p) holds. */
  lemma HeadPrecedesInserted<T>(s: seq<T>, r: seq<(T, nat)>, p: (T, nat))
    requires r != [] && CountedIn(s, r) && RankedIn(s, r)
    requires p.0 in s && p.1 == Count(s, p.0)
    requires r[0].1 >= p.1 && FirstIndex(s, r[0].0) < FirstIndex(s, p.0)
    ensures forall k :: 0 <= k < |Insert(r[1..], p)| ==> Precedes(s, r[0].0, Insert(r[1..], p)[k].0)
  {
    var t := Insert(r[1..], p);
    forall k | 0 <= k < |t|
      ensures Precedes(s, r[0].0, t[k].0)
    {
      InsertMembers(r[1..], p, k);
      if t[k] != p {
        var m :| 0 <= m < |r[1..]| && r[1..][m] == t[k];
        assert r[m + 1] == t[k];
      }
    }
  }

  lemma {:induction false} InsertRanked<T>(s: seq<T>, r: seq<(T, nat)>, p: (T, nat))
    requires CountedIn(s, r) && RankedIn(s, r)
    requires p.0 in s && p.1 == Count(s, p.0)
    requires forall i :: 0 <= i < |r| ==> FirstIndex(s, r[i].0) < FirstIndex(s, p.0)
    ensures RankedIn(s, Insert(r, p))
  {
    if r != [] {
      if r[0].1 >= p.1 {
        var tail := r[1..];
        assert CountedIn(s, tail) && RankedIn(s, tail) by {
          forall i | 0 <= i < |tail| ensures tail[i] == r[i + 1] { }
        }
        InsertRanked(s, tail, p);
        HeadPrecedesInserted(s, r, p);
        var t := Insert(tail, p);
        var r' := [r[0]] + t;
        forall i, j | 0 <= i < j < |r'|
          ensures Precedes(s, r'[i].0, r'[j].0)
        {
          assert r'[j] == t[j - 1];
          if i > 0 {
            assert r'[i] == t[i - 1];
          }
        }
      } else {
        var r' := [p] + r;
        forall i, j | 0 <= i < j < |r'|
          ensures Precedes(s, r'[i].0, r'[j].0)
        {
          assert r'[j] == r[j - 1];
          if i > 0 {
            assert r'[i] == r[i - 1];
          } else if j > 1 {
            assert Precedes(s, r[0].0, r[j - 1].0);
          }
        }
      }
    }
  }

  /** Whatever holds the first n keys' pairs holds only keys that appear before key n. */
  lemma AppearBefore<T>(s: seq<T>, r: seq<(T, nat)>, n: nat)
    requires n < |Distinct(s)|
    requires multiset(r) == multiset(Tally(s)[..n])
    ensures forall i :: 0 <= i < |r| ==> r[i].0 in s && FirstIndex(s, r[i].0) < FirstIndex(s, Distinct(s)[n])
  {
    var t := Tally(s);
    DistinctInFirstAppearanceOrder(s);
    forall i | 0 <= i < |r|
      ensures r[i].0 in s && FirstIndex(s, r[i].0) < FirstIndex(s, Distinct(s)[n])
    {
      assert r[i] in multiset(t[..n]);
      var k :| 0 <= k < n && t[..n][k] == r[i];
      TallyAt(s, k);
    }
  }

  lemma {:induction false} SortedTallyRanked<T>(s: seq<T>, n: nat)
    requires n <= |Distinct(s)|
    ensures CountedIn(s, SortByCountDesc(Tally(s)[..n]))
    ensures RankedIn(s, SortByCountDesc(Tally(s)[..n]))
    ensures multiset(SortByCountDesc(Tally(s)[..n])) == multiset(Tally(s)[..n])
  {
    if n > 0 {
      var t := Tally(s);
      var prefix := t[..n];
      TallyAt(s, n - 1);
      var p := t[n - 1];
      assert prefix == t[..n - 1] + [p];
      assert prefix[..n - 1] == t[..n - 1];
      SortedTallyRanked(s, n - 1);
      var r := SortByCountDesc(t[..n - 1]);
      assert SortByCountDesc(prefix) == Insert(r, p);
      AppearBefore(s, r, n - 1);
      InsertCounted(s, r, p);
      InsertRanked(s, r, p);
      InsertPermutes(r, p);
    }
  }

  /** The whole ranking, from which every property of most_common follows. */
  lemma RankingOfTally<T>(s: seq<T>)
    ensures |SortByCountDesc(Tally(s))| == |Distinct(s)|
    ensures CountedIn(s, SortByCountDesc(Tally(s)))
    ensures RankedIn(s, SortByCountDesc(Tally(s)))
    ensures forall x :: x in s ==> exists i :: 0 <= i < |SortByCountDesc(Tally(s))| && SortByCountDesc(Tally(s))[i].0 == x
  {
    var t := Tally(s);
    var d := Distinct(s);
    assert t[..|d|] == t;
    SortedTallyRanked(s, |d|);
    var sorted := SortByCountDesc(t);
    assert |multiset(sorted)| == |multiset(t)|;
    forall x | x in s
      ensures exists i :: 0 <= i < |sorted| && sorted[i].0 == x
    {
      var k :| 0 <= k < |d| && d[k] == x;
      TallyAt(s, k);
      assert t[k] in multiset(sorted);
      var i :| 0 <= i < |sorted| && sorted[i] == t[k];
    }
  }

  /** most_common(n) lists min(n, number of distinct keys) pairs, or none when n <= 0. */
  lemma MostCommonLength<T>(s: seq<T>, n: int)
    ensures |MostCommon(s, n)| == if n <= 0 then 0 else Min(n, |Distinct(s)|)
  {
    RankingOfTally(s);
  }

  /** Each listed pair is an element of s with its number of occurrences, and no element is listed twice. */
  lemma MostCommonCounts<T>(s: seq<T>, n: int)
    ensures forall i :: 0 <= i < |MostCommon(s, n)| ==>
      MostCommon(s, n)[i].0 in s && MostCommon(s, n)[i].1 == Count(s, MostCommon(s, n)[i].0)
    ensures forall i, j :: 0 <= i < j < |MostCommon(s, n)| ==> MostCommon(s, n)[i].0 != MostCommon(s, n)[j].0
  {
    RankingOfTally(s);
    var r := MostCommon(s, n);
    var sorted := SortByCountDesc(Tally(s));
    forall i, j | 0 <= i < j < |r| ensures r[i].0 != r[j].0 {
      assert r[i] == sorted[i] && r[j] == sorted[j];
      assert Precedes(s, sorted[i].0, sorted[j].0);
    }
  }

  /** Counts never increase along the list, and equal counts keep first-appearance order. */
  lemma MostCommonOrder<T>(s: seq<T>, n: int)
    ensures forall i, j :: 0 <= i < j < |MostCommon(s, n)| ==> MostCommon(s, n)[i].1 >= MostCommon(s, n)[j].1
    ensures forall i, j :: 0 <= i < j < |MostCommon(s, n)| && MostCommon(s, n)[i].1 == MostCommon(s, n)[j].1 ==>
      MostCommon(s, n)[i].0 in s && MostCommon(s, n)[j].0 in s &&
      FirstIndex(s, MostCommon(s, n)[i].0) < FirstIndex(s, MostCommon(s, n)[j].0)
  {
    RankingOfTally(s);
    var r := MostCommon(s, n);
    var sorted := SortByCountDesc(Tally(s));
    forall i, j | 0 <= i < j < |r|
      ensures r[i].1 >= r[j].1
      ensures r[i].1 == r[j].1 ==> FirstIndex(s, r[i].0) < FirstIndex(s, r[j].0)
    {
      assert r[i] == sorted[i] && r[j] == sorted[j];
      assert Precedes(s, sorted[i].0, sorted[j].0);
    }
  }

  /**
    An element left out is only left out because n was too small, and the last one
    listed ranks above it: it occurs more often, or as often and appeared first.
  */
  lemma MostCommonLeftOut<T>(s: seq<T>, n: int, x: T)
    requires x in s
    requires forall i :: 0 <= i < |MostCommon(s, n)| ==> MostCommon(s, n)[i].0 != x
    ensures n < |Distinct(s)|
    ensures n > 0 ==> |MostCommon(s, n)| > 0 && Count(s, x) <= MostCommon(s, n)[|MostCommon(s, n)| - 1].1
    ensures n > 0 ==> |MostCommon(s, n)| > 0 && Precedes(s, MostCommon(s, n)[|MostCommon(s, n)| - 1].0, x)
  {
    RankingOfTally(s);
    var sorted := SortByCountDesc(Tally(s));
    var r := MostCommon(s, n);
    var i :| 0 <= i < |sorted| && sorted[i].0 == x;
    if n > 0 {
      var m := Min(n, |sorted|);
      assert r == sorted[..m];
      forall k | 0 <= k < m ensures sorted[k].0 != x {
        assert r[k] == sorted[k];
      }
      assert m - 1 < i;
      assert Precedes(s, sorted[m - 1].0, sorted[i].0);
      assert r[m - 1] == sorted[m - 1];
    }
  }

  /** Two different elements seen once each, one requested: the one that appeared first is kept. */
  lemma TieAtCut<T>(x: T, y: T)
    requires x != y
    ensures MostCommon([x, y], 1) == [(x, 1)]
  {
    var s := [x, y];
    assert s[..1] == [x] && s[..1][..0] == [];
    assert Distinct([x]) == [x];
    assert y !in [x] && [x] + [y] == [x, y];
    assert Distinct(s) == [x, y];
    CountIsMultiplicity(s, x);
    CountIsMultiplicity(s, y);
    var p, q: (T, nat) := (x, 1), (y, 1);
    var t := Tally(s);
    assert t == [p, q];
    var t1 := t[..1];
    assert t1 == [p] && t1[..0] == [];
    assert SortByCountDesc(t1) == [p];
    assert Insert([p], q) == [p] + Insert([], q) == [p, q];
    assert SortByCountDesc(t) == [p, q];
  }
}
