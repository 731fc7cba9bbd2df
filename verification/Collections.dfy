/** Finite minima under a total order, sorting of string lists, and sums over finite maps. */
module Collections {
  import opened Prelude

  // ----- Least elements -----

  ghost predicate TotalOrder<T(!new)>(le: (T, T) -> bool) {
    && (forall x, y :: le(x, y) || le(y, x))
    && (forall x, y :: le(x, y) && le(y, x) ==> x == y)
    && (forall x, y, z :: le(x, y) && le(y, z) ==> le(x, z))
  }

  ghost predicate IsLeast<T>(le: (T, T) -> bool, s: set<T>, least: T) {
    least in s && forall x :: x in s ==> le(least, x)
  }

  lemma {:induction false} LeastExists<T(!new)>(le: (T, T) -> bool, s: set<T>)
    requires TotalOrder(le) && s != {}
    ensures exists least :: IsLeast(le, s, least)
  {
    var x :| x in s;
    if s == {x} {
      assert le(x, x);
      assert IsLeast(le, s, x);
    } else {
      LeastExists(le, s - {x});
      var y :| IsLeast(le, s - {x}, y);
      var z := if le(x, y) then x else y;
      assert le(x, x);
      assert IsLeast(le, s, z);
    }
  }

  ghost function Least<T(!new)>(le: (T, T) -> bool, s: set<T>): (least: T)
    requires TotalOrder(le) && s != {}
    ensures IsLeast(le, s, least)
    ensures forall x :: IsLeast(le, s, x) ==> x == least
  {
    LeastExists(le, s);
    var least :| IsLeast(le, s, least);
    least
  }

  lemma StrOrder()
    ensures TotalOrder(StrLe)
  {
    forall x: string, y: string ensures StrLe(x, y) || StrLe(y, x) { StrLeTotal(x, y); }
    forall x: string, y: string | StrLe(x, y) && StrLe(y, x) ensures x == y { StrLeAntisymmetric(x, y); }
    forall x: string, y: string, z: string | StrLe(x, y) && StrLe(y, z) ensures StrLe(x, z) {
      StrLeTransitive(x, y, z);
    }
  }

  // ----- Sorted string lists -----

  predicate Ordered(s: seq<string>) {
    forall i, j :: 0 <= i < j < |s| ==> StrLe(s[i], s[j])
  }

  ghost predicate NoDuplicates<T>(s: seq<T>) {
    forall i, j :: 0 <= i < j < |s| ==> s[i] != s[j]
  }

  ghost function Elements<T>(s: seq<T>): set<T> {
    set x | x in s
  }

  /** The least string of a non-empty set. */
  ghost function LeastStr(s: set<string>): (least: string)
    requires s != {}
    ensures least in s && forall x :: x in s ==> StrLe(least, x)
  {
    StrOrder();
    Least(StrLe, s)
  }

  /** The one strictly increasing list of a finite set of strings. */
  ghost function Sorted(s: set<string>): (r: seq<string>)
    ensures Elements(r) == s && NoDuplicates(r) && |r| == |s|
    ensures Ordered(r)
  {
    if s == {} then [] else
      var least := LeastStr(s);
      var rest := Sorted(s - {least});
      ConsSorted(least, rest, s);
      [least] + rest
  }

  lemma ConsSorted(least: string, rest: seq<string>, s: set<string>)
    requires least in s && forall x :: x in s ==> StrLe(least, x)
    requires Elements(rest) == s - {least} && NoDuplicates(rest) && Ordered(rest)
    ensures Elements([least] + rest) == s && NoDuplicates([least] + rest) && Ordered([least] + rest)
  {
    var r := [least] + rest;
    forall x ensures x in Elements(r) <==> x in s {
      assert x in r <==> x == least || x in rest;
      assert x in Elements(rest) <==> x in rest;
    }
    forall i, j | 0 <= i < j < |r| ensures r[i] != r[j] && StrLe(r[i], r[j]) {
      assert r[j] == rest[j - 1] && r[j] in Elements(rest);
      if i > 0 {
        assert r[i] == rest[i - 1];
      }
    }
  }

  /** Any ordered list without repetitions is the sorted list of its elements. */
  lemma {:induction false} SortedIsUnique(s: seq<string>)
    requires Ordered(s) && NoDuplicates(s)
    ensures s == Sorted(Elements(s))
  {
    if s != [] {
      var all := Elements(s);
      var rest := s[1..];
      assert s[0] in all;
      assert s[0] == LeastStr(all) by { HeadIsLeast(s); }
      assert Elements(rest) == all - {s[0]} by { TailElements(s); }
      SortedIsUnique(rest);
      assert s == [s[0]] + rest;
    } else {
      assert Elements(s) == {};
    }
  }

  lemma HeadIsLeast(s: seq<string>)
    requires s != [] && Ordered(s)
    ensures s[0] in Elements(s) && LeastStr(Elements(s)) == s[0]
  {
    var all := Elements(s);
    assert s[0] in all;
    var least := LeastStr(all);
    var i :| 0 <= i < |s| && s[i] == least;
    if i != 0 {
      assert StrLe(s[0], s[i]);
      StrLeAntisymmetric(least, s[0]);
    }
  }

  lemma TailElements<T>(s: seq<T>)
    requires s != [] && NoDuplicates(s)
    ensures Elements(s[1..]) == Elements(s) - {s[0]}
  {
    assert s == [s[0]] + s[1..];
    forall x | x in Elements(s) - {s[0]} ensures x in s[1..] {
      var i :| 0 <= i < |s| && s[i] == x;
      assert s[1..][i - 1] == x;
    }
  }

  /** Keeps a sorted list sorted while adding one string (the step of an insertion sort). */
  function Insert(x: string, s: seq<string>): (r: seq<string>)
    requires Ordered(s)
    ensures Ordered(r)
    ensures multiset(r) == multiset{x} + multiset(s)
  {
    if s == [] then [x]
    else if StrLe(x, s[0]) then
      InsertedBeforeHead(x, s);
      [x] + s
    else
      StrLeTotal(x, s[0]);
      var rest := Insert(x, s[1..]);
      assert s == [s[0]] + s[1..];
      InsertedAfterHead(x, s, rest);
      [s[0]] + rest
  }

  lemma InsertedBeforeHead(x: string, s: seq<string>)
    requires s != [] && Ordered(s) && StrLe(x, s[0])
    ensures Ordered([x] + s)
  {
    forall j | 0 <= j < |s| ensures StrLe(x, s[j]) {
      if j > 0 {
        StrLeTransitive(x, s[0], s[j]);
      }
    }
  }

  lemma InsertedAfterHead(x: string, s: seq<string>, rest: seq<string>)
    requires s != [] && Ordered(s) && StrLe(s[0], x)
    requires multiset(rest) == multiset{x} + multiset(s[1..])
    ensures forall y :: y in rest ==> StrLe(s[0], y)
  {
    forall y | y in rest ensures StrLe(s[0], y) {
      assert y in multiset(rest);
      if y != x {
        assert y in s[1..];
        var k :| 0 <= k < |s[1..]| && s[1..][k] == y;
        assert s[k + 1] == y;
      }
    }
  }

  /** `sort_unstable` on strings. */
  function Sort(s: seq<string>): (r: seq<string>)
    ensures Ordered(r)
    ensures multiset(r) == multiset(s)
  {
    if s == [] then [] else
      assert s == [s[0]] + s[1..];
      Insert(s[0], Sort(s[1..]))
  }

  /** Sorting a list without repetitions gives the sorted list of its elements. */
  lemma SortOfDistinct(s: seq<string>)
    requires NoDuplicates(s)
    ensures Sort(s) == Sorted(Elements(s))
  {
    var r := Sort(s);
    assert forall x :: multiset(r)[x] <= 1 by {
      forall x ensures multiset(s)[x] <= 1 { CountOfDistinct(s, x); }
    }
    forall i, j | 0 <= i < j < |r| ensures r[i] != r[j] {
      if r[i] == r[j] {
        TwoOccurrences(r, i, j);
      }
    }
    assert Elements(r) == Elements(s) by {
      assert forall x :: x in r <==> x in multiset(r);
      assert forall x :: x in s <==> x in multiset(s);
    }
    SortedIsUnique(r);
  }

  lemma {:induction false} CountOfDistinct<T>(s: seq<T>, x: T)
    requires NoDuplicates(s)
    ensures multiset(s)[x] <= 1
  {
    if s != [] {
      assert s == [s[0]] + s[1..];
      CountOfDistinct(s[1..], x);
      if s[0] == x {
        assert x !in s[1..];
        assert x !in multiset(s[1..]);
      }
    }
  }

  lemma TwoOccurrences<T>(s: seq<T>, i: int, j: int)
    requires 0 <= i < j < |s| && s[i] == s[j]
    ensures multiset(s)[s[i]] >= 2
  {
    assert s == s[..j] + [s[j]] + s[j + 1..];
    assert s[..j][i] == s[i];
    assert s[i] in multiset(s[..j]);
  }

  /** A prefix grows by one occurrence, which the whole list still has to give. */
  lemma OneMore<T>(s: seq<T>, i: nat)
    requires i < |s|
    ensures s[i] in s
    ensures multiset(s[..i + 1]) == multiset(s[..i]) + multiset{s[i]}
    ensures multiset(s)[s[i]] >= multiset(s[..i])[s[i]] + 1
  {
    assert s[..i + 1] == s[..i] + [s[i]];
    assert s == s[..i + 1] + s[i + 1..];
  }

  lemma {:induction false} LengthOfDistinct<T>(s: seq<T>)
    requires NoDuplicates(s)
    ensures |Elements(s)| == |s|
  {
    if s != [] {
      LengthOfDistinct(s[1..]);
      assert Elements(s) == {s[0]} + Elements(s[1..]) by {
        assert s == [s[0]] + s[1..];
      }
      assert s[0] !in s[1..];
    } else {
      assert Elements(s) == {};
    }
  }

  // ----- Sums over finite maps -----

  ghost function Sum<K>(m: map<K, nat>): nat {
    if m == map[] then 0
    else
      var k :| k in m;
      m[k] + Sum(m - {k})
  }

  /** The sum may be taken apart at any key. */
  lemma {:induction false} SumAt<K>(m: map<K, nat>, k: K)
    requires k in m
    ensures Sum(m) == m[k] + Sum(m - {k})
    decreases |m|
  {
    var pick :| pick in m && Sum(m) == m[pick] + Sum(m - {pick});
    if pick != k {
      SumAt(m - {pick}, k);
      SumAt(m - {k}, pick);
      assert m - {pick} - {k} == m - {k} - {pick};
    }
  }

  lemma SumUpdate<K>(m: map<K, nat>, k: K, v: nat)
    ensures Sum(m[k := v]) == Sum(m) + v - if k in m then m[k] else 0
  {
    SumAt(m[k := v], k);
    assert m[k := v] - {k} == m - {k};
    if k in m {
      SumAt(m, k);
    } else {
      assert m - {k} == m;
    }
  }

  lemma {:induction false} SumMonotone<K>(low: map<K, nat>, high: map<K, nat>)
    requires low.Keys == high.Keys
    requires forall k :: k in low ==> low[k] <= high[k]
    ensures Sum(low) <= Sum(high)
    decreases |low|
  {
    if low == map[] {
      assert high.Keys == {};
    } else {
      var k :| k in low;
      SumAt(low, k);
      SumAt(high, k);
      SumMonotone(low - {k}, high - {k});
    }
  }

  /** If every entry of `drop` went down by at least one and no entry went up, the sum went down by `|drop|`. */
  lemma {:induction false} SumDrop<K>(low: map<K, nat>, high: map<K, nat>, drop: set<K>)
    requires low.Keys == high.Keys && drop <= low.Keys
    requires forall k :: k in low ==> low[k] <= high[k]
    requires forall k :: k in drop ==> low[k] < high[k]
    ensures Sum(low) + |drop| <= Sum(high)
    decreases |drop|
  {
    if drop == {} {
      SumMonotone(low, high);
    } else {
      var k :| k in drop;
      SumAt(low, k);
      SumAt(high, k);
      SumDrop(low - {k}, high - {k}, drop - {k});
      assert |drop - {k}| == |drop| - 1;
    }
  }

  lemma {:induction false} SumBounded<K>(m: map<K, nat>, bound: nat)
    requires forall k :: k in m ==> m[k] <= bound
    ensures Sum(m) <= bound * |m|
    decreases |m|
  {
    if m != map[] {
      var k :| k in m;
      SumAt(m, k);
      SumBounded(m - {k}, bound);
      SizeWithout(m, k);
      assert bound * |m| == bound * (|m| - 1) + bound;
    }
  }

  lemma SizeWithout<K, T>(m: map<K, T>, k: K)
    requires k in m
    ensures |m - {k}| == |m| - 1
  {
    assert (m - {k}).Keys == m.Keys - {k};
    assert |(m - {k}).Keys| == |m - {k}| && |m.Keys| == |m|;
  }

  /** Entries worth nothing do not change a sum. */
  lemma {:induction false} SumWithZeros<K>(small: map<K, nat>, big: map<K, nat>)
    requires small.Keys <= big.Keys
    requires forall k :: k in big ==> big[k] == if k in small then small[k] else 0
    ensures Sum(big) == Sum(small)
    decreases |big|
  {
    if forall k :: k in big ==> k in small {
      assert big == small;
    } else {
      var k :| k in big && k !in small;
      SumAt(big, k);
      SumWithZeros(small, big - {k});
    }
  }
}
