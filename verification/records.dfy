/** The three record lists the dashboard reads, and counting over them. */
module Records {

  /** A staff record. `joinDate` is the join instant in milliseconds since the epoch. */
  datatype Employee = Employee(
    id: int,
    name: string,
    department: string,
    role: string,
    status: string,
    salary: int,
    rating: real,
    attendanceRate: real,
    joinDate: int)

  /** One day of attendance counts; `date` is kept as the source's date string. */
  datatype AttendanceDay = AttendanceDay(date: string, present: nat, absent: nat, late: nat)

  /** One recruitment pipeline entry; stage and priority are the source's lower-case strings. */
  datatype Recruitment = Recruitment(
    position: string,
    department: string,
    applicants: nat,
    stage: string,
    priority: string)

  /** A value that may be absent, as JavaScript's `undefined` result of `find`. */
  datatype Option<T> = None | Some(value: T)

  /** xs.filter(p).length */
  function Count<T>(xs: seq<T>, p: T -> bool): (n: nat)
    ensures n <= |xs|
  {
    if |xs| == 0 then 0 else Count(xs[..|xs| - 1], p) + (if p(xs[|xs| - 1]) then 1 else 0)
  }

  lemma {:induction false} CountConcat<T>(xs: seq<T>, ys: seq<T>, p: T -> bool)
    ensures Count(xs + ys, p) == Count(xs, p) + Count(ys, p)
    decreases |ys|
  {
    if |ys| == 0 {
      assert xs + ys == xs;
    } else {
      var init := ys[..|ys| - 1];
      assert (xs + ys)[..|xs + ys| - 1] == xs + init;
      CountConcat(xs, init, p);
    }
  }

  /** The count is the number of positions whose element satisfies p. */
  lemma {:induction false} CountIndices<T>(xs: seq<T>, p: T -> bool)
    ensures Count(xs, p) == |set i | 0 <= i < |xs| && p(xs[i])|
  {
    if |xs| > 0 {
      var init := xs[..|xs| - 1];
      CountIndices(init, p);
      var before := set i | 0 <= i < |init| && p(init[i]);
      var after := set i | 0 <= i < |xs| && p(xs[i]);
      if p(xs[|xs| - 1]) {
        assert after == before + {|xs| - 1};
        assert |xs| - 1 !in before;
      } else {
        assert after == before;
      }
    }
  }

  /** An element satisfies p or it does not: the two counts make up the whole list. */
  lemma {:induction false} CountComplement<T>(xs: seq<T>, p: T -> bool, q: T -> bool)
    requires forall x :: q(x) == !p(x)
    ensures Count(xs, p) + Count(xs, q) == |xs|
  {
    if |xs| > 0 {
      CountComplement(xs[..|xs| - 1], p, q);
    }
  }

  /** Two conditions no element meets together are counted on disjoint parts of the list. */
  lemma {:induction false} CountDisjoint<T>(xs: seq<T>, p: T -> bool, q: T -> bool)
    requires forall x :: !(p(x) && q(x))
    ensures Count(xs, p) + Count(xs, q) <= |xs|
  {
    if |xs| > 0 {
      CountDisjoint(xs[..|xs| - 1], p, q);
    }
  }

  /** Removing the element at k removes one copy of it from the multiset. */
  lemma MultisetRemove<T>(ys: seq<T>, k: nat)
    requires k < |ys|
    ensures multiset(ys) == multiset(ys[..k] + ys[k + 1..]) + multiset{ys[k]}
  {
    assert ys == ys[..k] + [ys[k]] + ys[k + 1..];
  }

  lemma MultisetCancel<T>(a: multiset<T>, b: multiset<T>, x: T)
    requires a + multiset{x} == b + multiset{x}
    ensures a == b
  {
    forall e ensures a[e] == b[e] {
      assert (a + multiset{x})[e] == a[e] + multiset{x}[e];
      assert (b + multiset{x})[e] == b[e] + multiset{x}[e];
    }
  }
}
