/** Order statistics of finite lists of reals, characterised by counting, and their response to
    replacing one value or moving every value a little. */
module OrderStatistics {

  ghost predicate Sorted(s: seq<real>) {
    forall i, j | 0 <= i < j < |s| :: s[i] <= s[j]
  }

  function Insert(x: real, s: seq<real>): (t: seq<real>)
    ensures |t| == |s| + 1
  {
    if s == [] || x <= s[0] then [x] + s else [s[0]] + Insert(x, s[1..])
  }

  /** The list in ascending order. */
  function Sort(a: seq<real>): (s: seq<real>)
    ensures |s| == |a|
  {
    if a == [] then [] else Insert(a[0], Sort(a[1..]))
  }

  lemma {:induction false} InsertSorted(x: real, s: seq<real>)
    requires Sorted(s)
    ensures Sorted(Insert(x, s)) && (Insert(x, s)[0] == x || (s != [] && Insert(x, s)[0] == s[0]))
  {
    if s != [] && x > s[0] {
      InsertSorted(x, s[1..]);
    }
  }

  lemma {:induction false} InsertPermutes(x: real, s: seq<real>)
    ensures multiset(Insert(x, s)) == multiset{x} + multiset(s)
  {
    if s != [] && x > s[0] {
      InsertPermutes(x, s[1..]);
      assert s == [s[0]] + s[1..];
    }
  }

  lemma {:induction false} SortSorts(a: seq<real>)
    ensures Sorted(Sort(a)) && multiset(Sort(a)) == multiset(a)
  {
    if a != [] {
      SortSorts(a[1..]);
      InsertSorted(a[0], Sort(a[1..]));
      InsertPermutes(a[0], Sort(a[1..]));
      assert a == [a[0]] + a[1..];
    }
  }

  /** How many values do not exceed x. */
  function CountUpTo(a: seq<real>, x: real): nat {
    if a == [] then 0 else (if a[0] <= x then 1 else 0) + CountUpTo(a[1..], x)
  }

  function CountEqual(a: seq<real>, x: real): nat {
    if a == [] then 0 else (if a[0] == x then 1 else 0) + CountEqual(a[1..], x)
  }

  // ----- Counting ignores order -----

  lemma {:induction false} InsertCounts(x: real, s: seq<real>, y: real)
    ensures CountUpTo(Insert(x, s), y) == CountUpTo([x] + s, y)
  {
    if s != [] && x > s[0] {
      InsertCounts(x, s[1..], y);
      assert ([s[0]] + Insert(x, s[1..]))[1..] == Insert(x, s[1..]);
      assert ([x] + s[1..])[1..] == s[1..] && ([x] + s)[1..] == s;
    }
  }

  lemma {:induction false} SortCounts(a: seq<real>, y: real)
    ensures CountUpTo(Sort(a), y) == CountUpTo(a, y)
  {
    if a != [] {
      SortCounts(a[1..], y);
      InsertCounts(a[0], Sort(a[1..]), y);
      assert ([a[0]] + Sort(a[1..]))[1..] == Sort(a[1..]);
    }
  }

  lemma {:induction false} CountInSorted(s: seq<real>, k: nat, x: real)
    requires Sorted(s) && k < |s|
    ensures s[k] <= x <==> CountUpTo(s, x) > k
  {
    if s[0] > x {
      NoneUpTo(s, x);
    } else if k > 0 {
      CountInSorted(s[1..], k - 1, x);
    }
  }

  lemma {:induction false} NoneUpTo(s: seq<real>, x: real)
    requires forall i | 0 <= i < |s| :: s[i] > x
    ensures CountUpTo(s, x) == 0
  {
    if s != [] {
      NoneUpTo(s[1..], x);
    }
  }

  /** The k-th smallest value is at most x exactly when more than k values are. */
  lemma Rank(a: seq<real>, k: nat, x: real)
    requires k < |a|
    ensures Sort(a)[k] <= x <==> CountUpTo(a, x) > k
  {
    hide Sort, CountUpTo, Sorted;
    SortSorts(a);
    SortCounts(a, x);
    CountInSorted(Sort(a), k, x);
  }

  // ----- Replacing one value -----

  lemma {:induction false} ReplaceCounts(a: seq<real>, i: nat, v: real, x: real)
    requires i < |a|
    ensures CountUpTo(a, x) - 1 <= CountUpTo(a[i := v], x) <= CountUpTo(a, x) + 1
  {
    if i == 0 {
      assert a[i := v][1..] == a[1..];
    } else {
      ReplaceCounts(a[1..], i - 1, v, x);
      assert a[i := v][1..] == a[1..][i - 1 := v];
    }
  }

  /** Main result on outliers: the order statistics of a list with one value replaced by anything
      interlace with those of the original list. */
  lemma Interlace(a: seq<real>, i: nat, v: real, k: nat)
    requires i < |a| && k < |a|
    ensures k + 1 < |a| ==> Sort(a[i := v])[k] <= Sort(a)[k + 1]
    ensures k >= 1 ==> Sort(a)[k - 1] <= Sort(a[i := v])[k]
  {
    hide Sort, CountUpTo;
    var b := a[i := v];
    if k + 1 < |a| {
      var x := Sort(a)[k + 1];
      Rank(a, k + 1, x);
      ReplaceCounts(a, i, v, x);
      Rank(b, k, x);
    }
    if k >= 1 {
      var x := Sort(b)[k];
      Rank(b, k, x);
      ReplaceCounts(a, i, v, x);
      Rank(a, k - 1, x);
    }
  }

  // ----- Moving every value a little -----

  lemma {:induction false} NearbyCounts(a: seq<real>, b: seq<real>, delta: real, x: real)
    requires |a| == |b| && forall i | 0 <= i < |a| :: b[i] <= a[i] + delta
    ensures CountUpTo(a, x) <= CountUpTo(b, x + delta)
  {
    if a != [] {
      NearbyCounts(a[1..], b[1..], delta, x);
    }
  }

  lemma NearbyStatistics(a: seq<real>, b: seq<real>, delta: real, k: nat)
    requires |a| == |b| && k < |a| && forall i | 0 <= i < |a| :: b[i] <= a[i] + delta
    ensures Sort(b)[k] <= Sort(a)[k] + delta
  {
    hide Sort, CountUpTo;
    var x := Sort(a)[k];
    Rank(a, k, x);
    NearbyCounts(a, b, delta, x);
    Rank(b, k, x + delta);
  }

  // ----- Mapping every value -----

  function Map(f: real -> real, a: seq<real>): (b: seq<real>)
    ensures |b| == |a| && forall i | 0 <= i < |a| :: b[i] == f(a[i])
  {
    if a == [] then [] else [f(a[0])] + Map(f, a[1..])
  }

  ghost predicate Increasing(f: real -> real) {
    forall x, y :: x <= y <==> f(x) <= f(y)
  }

  lemma {:induction false} InsertMap(f: real -> real, x: real, s: seq<real>)
    requires Increasing(f)
    ensures Insert(f(x), Map(f, s)) == Map(f, Insert(x, s))
  {
    if s != [] {
      assert Map(f, s)[1..] == Map(f, s[1..]);
      if x > s[0] {
        InsertMap(f, x, s[1..]);
        assert ([s[0]] + Insert(x, s[1..]))[1..] == Insert(x, s[1..]);
      } else {
        assert ([x] + s)[1..] == s;
      }
    }
  }

  /** Sorting commutes with every strictly increasing change of scale. */
  lemma {:induction false} SortMap(f: real -> real, a: seq<real>)
    requires Increasing(f)
    ensures Sort(Map(f, a)) == Map(f, Sort(a))
  {
    if a != [] {
      assert Map(f, a)[1..] == Map(f, a[1..]);
      SortMap(f, a[1..]);
      InsertMap(f, a[0], Sort(a[1..]));
    }
  }
}
