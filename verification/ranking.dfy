/** The top-performer ranking: the shared staff array sorted in place by rating, highest first,
    with a stable sort (Array.prototype.sort, stable since ES2019), then its first N entries. */
module Ranking {
  import opened Numeric
  import opened Text
  import opened Records

  /** Ratings never increase along the sequence. */
  predicate SortedByRating(s: seq<Employee>)
  {
    forall i, j | 0 <= i < j < |s| :: s[i].rating >= s[j].rating
  }

  /** The records with rating r, in their order: a stable sort must leave this unchanged for every r. */
  function WithRating(s: seq<Employee>, r: real): seq<Employee>
  {
    if |s| == 0 then []
    else WithRating(s[..|s| - 1], r) + (if s[|s| - 1].rating == r then [s[|s| - 1]] else [])
  }

  /** Puts x into a list sorted by rating: after every record rated at least as high, ahead of
      every record rated lower. This is what the comparator b.rating - a.rating asks for. */
  function Insert(t: seq<Employee>, x: Employee): seq<Employee>
  {
    if |t| == 0 || t[|t| - 1].rating >= x.rating then t + [x]
    else Insert(t[..|t| - 1], x) + [t[|t| - 1]]
  }

  /** The order the stable descending sort produces. */
  function SortByRating(s: seq<Employee>): seq<Employee>
  {
    if |s| == 0 then [] else Insert(SortByRating(s[..|s| - 1]), s[|s| - 1])
  }

  // ---------------------------------------------------------------------------------------
  // Properties of the specification

  lemma {:induction false} InsertPermutes(t: seq<Employee>, x: Employee)
    ensures multiset(Insert(t, x)) == multiset(t) + multiset{x}
    ensures |Insert(t, x)| == |t| + 1
  {
    if |t| > 0 && t[|t| - 1].rating < x.rating {
      var init := t[..|t| - 1];
      InsertPermutes(init, x);
      assert t == init + [t[|t| - 1]];
    }
  }

  lemma {:induction false} InsertSorted(t: seq<Employee>, x: Employee)
    requires SortedByRating(t)
    ensures SortedByRating(Insert(t, x))
  {
    if |t| > 0 && t[|t| - 1].rating < x.rating {
      var init := t[..|t| - 1];
      var last := t[|t| - 1];
      InsertSorted(init, x);
      InsertPermutes(init, x);
      var u := Insert(init, x);
      forall i | 0 <= i < |u| ensures u[i].rating >= last.rating {
        assert u[i] in multiset(init) + multiset{x};
        if u[i] in multiset(init) {
          var k :| 0 <= k < |init| && init[k] == u[i];
          assert t[k] == u[i];
        }
      }
    }
  }

  lemma {:induction false} WithRatingConcat(a: seq<Employee>, b: seq<Employee>, r: real)
    ensures WithRating(a + b, r) == WithRating(a, r) + WithRating(b, r)
    decreases |b|
  {
    if |b| == 0 {
      assert a + b == a;
    } else {
      var init := b[..|b| - 1];
      assert (a + b)[..|a + b| - 1] == a + init;
      WithRatingConcat(a, init, r);
    }
  }

  lemma WithRatingSingle(x: Employee, r: real)
    ensures WithRating([x], r) == if x.rating == r then [x] else []
  {
    assert [x][..0] == [];
  }

  /** Insertion keeps x behind every record of the same rating. */
  lemma {:induction false} InsertStable(t: seq<Employee>, x: Employee, r: real)
    ensures WithRating(Insert(t, x), r) == WithRating(t, r) + WithRating([x], r)
  {
    if |t| == 0 || t[|t| - 1].rating >= x.rating {
      WithRatingConcat(t, [x], r);
    } else {
      var init := t[..|t| - 1];
      var last := t[|t| - 1];
      InsertStable(init, x, r);
      WithRatingConcat(Insert(init, x), [last], r);
      WithRatingSingle(x, r);
      WithRatingSingle(last, r);
      assert WithRating(t, r) == WithRating(init, r) + WithRating([last], r) by {
        assert t == init + [last];
        WithRatingConcat(init, [last], r);
      }
    }
  }

  /** The sort returns a permutation of its input... */
  lemma {:induction false} SortPermutes(s: seq<Employee>)
    ensures multiset(SortByRating(s)) == multiset(s)
    ensures |SortByRating(s)| == |s|
  {
    if |s| > 0 {
      var init := s[..|s| - 1];
      SortPermutes(init);
      InsertPermutes(SortByRating(init), s[|s| - 1]);
      assert s == init + [s[|s| - 1]];
    }
  }

  /** ...with ratings in non-increasing order... */
  lemma {:induction false} SortSorts(s: seq<Employee>)
    ensures SortedByRating(SortByRating(s))
  {
    if |s| > 0 {
      SortSorts(s[..|s| - 1]);
      InsertSorted(SortByRating(s[..|s| - 1]), s[|s| - 1]);
    }
  }

  /** ...and records of equal rating in their input order. */
  lemma {:induction false} SortIsStable(s: seq<Employee>, r: real)
    ensures WithRating(SortByRating(s), r) == WithRating(s, r)
  {
    if |s| > 0 {
      var init := s[..|s| - 1];
      SortIsStable(init, r);
      InsertStable(SortByRating(init), s[|s| - 1], r);
      WithRatingSingle(s[|s| - 1], r);
    }
  }

  /** An already sorted list is left as it is: the report's sort (line 190) of the array every
      render has already sorted for the card (line 751) changes nothing. */
  lemma {:induction false} SortOfSortedIsIdentity(s: seq<Employee>)
    requires SortedByRating(s)
    ensures SortByRating(s) == s
  {
    if |s| > 0 {
      var init := s[..|s| - 1];
      assert SortedByRating(init);
      SortOfSortedIsIdentity(init);
      assert s == init + [s[|s| - 1]];
    }
  }

  lemma SortIdempotent(s: seq<Employee>)
    ensures SortByRating(SortByRating(s)) == SortByRating(s)
  {
    SortSorts(s);
    SortOfSortedIsIdentity(SortByRating(s));
  }

  // ---------------------------------------------------------------------------------------
  // The in-place sort on the shared array (lines 190, 751)

  /** Insert puts x at the position j after which only lower-rated records follow and before
      which the record is rated at least as high. */
  lemma {:induction false} InsertAtPosition(t: seq<Employee>, x: Employee, j: nat)
    requires j <= |t|
    requires j == 0 || t[j - 1].rating >= x.rating
    requires forall k | j <= k < |t| :: t[k].rating < x.rating
    ensures Insert(t, x) == t[..j] + [x] + t[j..]
  {
    if j < |t| {
      var init := t[..|t| - 1];
      InsertAtPosition(init, x, j);
      assert init[..j] == t[..j];
      assert t[j..] == init[j..] + [t[|t| - 1]];
    } else {
      assert t[..j] == t;
    }
  }

  /** One step of the sort: shifts the records of a[..i] rated below a[i] one place right and
      drops a[i] into the gap at position j. */
  method InsertAt(a: array<Employee>, i: nat) returns (j: nat)
    requires i < a.Length
    modifies a
    ensures j <= i
    ensures a[..i + 1] == old(a[..j]) + [old(a[i])] + old(a[j..i])
    ensures j == 0 || old(a[j - 1]).rating >= old(a[i]).rating
    ensures forall k | j <= k < i :: old(a[k]).rating < old(a[i]).rating
    ensures a[i + 1..] == old(a[i + 1..])
  {
    var x := a[i];
    j := i;
    while j > 0 && a[j - 1].rating < x.rating
      invariant 0 <= j <= i
      invariant forall k | 0 <= k < j :: a[k] == old(a[k])
      invariant forall k | j < k <= i :: a[k] == old(a[k - 1])
      invariant forall k | i < k < a.Length :: a[k] == old(a[k])
      invariant forall k | j <= k < i :: old(a[k]).rating < x.rating
    {
      a[j] := a[j - 1];
      j := j - 1;
    }
    a[j] := x;
    ghost var r := old(a[..j]) + [x] + old(a[j..i]);
    assert a[..i + 1] == r by {
      forall k | 0 <= k <= i ensures a[k] == r[k] {
        if k < j { assert r[k] == old(a[k]); }
        else if k > j { assert r[k] == old(a[k - 1]); }
      }
    }
  }

  /** One pass of the sort's loop, on values: if a[..i] was the sorted prefix and InsertAt moved
      a[i] to position j, then a[..i + 1] is the sorted prefix one longer. */
  lemma SortStep(s: seq<Employee>, pre: seq<Employee>, post: seq<Employee>, i: nat, j: nat)
    requires i < |s| == |pre| == |post|
    requires pre[..i] == SortByRating(s[..i]) && pre[i..] == s[i..]
    requires j <= i
    requires post[..i + 1] == pre[..j] + [pre[i]] + pre[j..i]
    requires j == 0 || pre[j - 1].rating >= pre[i].rating
    requires forall k | j <= k < i :: pre[k].rating < pre[i].rating
    requires post[i + 1..] == pre[i + 1..]
    ensures post[..i + 1] == SortByRating(s[..i + 1])
    ensures post[i + 1..] == s[i + 1..]
  {
    var t := pre[..i];
    assert pre[i] == s[i] by { assert pre[i..][0] == s[i..][0]; }
    assert pre[..j] == t[..j] && pre[j..i] == t[j..];
    InsertAtPosition(t, s[i], j);
    assert s[..i + 1][..i] == s[..i];
    assert pre[i + 1..] == s[i + 1..] by { assert pre[i..][1..] == s[i..][1..]; }
  }

  /** mockEmployees.sort((a, b) => b.performanceRating - a.performanceRating), as a stable
      insertion sort on the array itself. */
  method SortInPlace(a: array<Employee>)
    modifies a
    ensures a[..] == SortByRating(old(a[..]))
  {
    ghost var s := a[..];
    var i := 0;
    while i < a.Length
      invariant 0 <= i <= a.Length
      invariant a[..i] == SortByRating(s[..i])
      invariant a[i..] == s[i..]
    {
      ghost var pre := a[..];
      var j := InsertAt(a, i);
      SortStep(s, pre, a[..], i, j);
      i := i + 1;
    }
    assert s[..a.Length] == s;
  }

  /** sort(...).slice(0, n): sorts the shared array, then returns its first n entries. */
  method RankTopPerformers(a: array<Employee>, n: nat) returns (top: seq<Employee>)
    modifies a
    ensures a[..] == SortByRating(old(a[..]))
    ensures top == a[..Min(n, a.Length)]
  {
    SortInPlace(a);
    top := a[..Min(n, a.Length)];
  }

  /** The first n of the ranking: min(n, |s|) records, highest rated first, each rated at least as
      high as every record left out, all drawn from the staff. */
  lemma TopPerformers(s: seq<Employee>, n: nat)
    ensures var sorted := SortByRating(s); var top := sorted[..Min(n, |sorted|)];
      && |top| == Min(n, |s|)
      && SortedByRating(top)
      && (forall i, k | 0 <= i < |top| <= k < |sorted| :: top[i].rating >= sorted[k].rating)
      && multiset(top) <= multiset(s)
  {
    SortPermutes(s);
    SortSorts(s);
    var sorted := SortByRating(s);
    var top := sorted[..Min(n, |s|)];
    assert sorted == top + sorted[Min(n, |s|)..];
  }

  // ---------------------------------------------------------------------------------------
  // Report rows (lines 192-201)

  /** `#${index + 1}` */
  function RankLabel(rank: nat): (s: string)
    ensures |s| >= 2 && s[0] == '#'
    ensures s[1..] == DecimalString(rank)
  {
    "#" + DecimalString(rank)
  }

  /** Different ranks get different labels. */
  lemma RankLabelsDistinct(r1: nat, r2: nat)
    requires r1 != r2
    ensures RankLabel(r1) != RankLabel(r2)
  {
    DecimalRoundTrip(r1);
    DecimalRoundTrip(r2);
  }

  datatype PerformerRow = PerformerRow(
    rank: string,
    name: string,
    department: string,
    role: string,
    ratingTenths: int,
    attendanceRate: real,
    salary: int,
    joinDate: int)

  /** One row per ranked employee, ranks #1, #2, ... in order. */
  function PerformerRows(ranked: seq<Employee>): (rows: seq<PerformerRow>)
    ensures |rows| == |ranked|
    ensures forall k | 0 <= k < |rows| ::
      var e := ranked[k];
      rows[k] == PerformerRow(RankLabel(k + 1), e.name, e.department, e.role, Tenths(e.rating),
                              e.attendanceRate, e.salary, e.joinDate)
  {
    seq(|ranked|, k requires 0 <= k < |ranked| =>
      var e := ranked[k];
      PerformerRow(RankLabel(k + 1), e.name, e.department, e.role, Tenths(e.rating),
                   e.attendanceRate, e.salary, e.joinDate))
  }
}
