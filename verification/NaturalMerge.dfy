/** Merging natural runs, on sequences: what a merge keeps, and how each pass lowers the number of runs. */
module NaturalMerge {

  ghost predicate StrictWeak<T>(less: (T, T) -> bool, s: seq<T>) {
    && (forall x :: x in s ==> !less(x, x))
    && (forall x, y, z :: x in s && y in s && z in s && less(x, y) ==> less(x, z) || less(z, y))
    && (forall x, y :: x in s && y in s && less(x, y) ==> !less(y, x))
  }

  /** No element is less than one before it. */
  ghost predicate Sorted<T>(less: (T, T) -> bool, s: seq<T>) {
    forall i, j :: 0 <= i < j < |s| ==> !less(s[j], s[i])
  }

  /** The elements of s that the order cannot tell from x, in order. */
  ghost function Alike<T>(less: (T, T) -> bool, s: seq<T>, x: T): seq<T> {
    if s == [] then [] else One(less, s[0], x) + Alike(less, s[1..], x)
  }

  ghost function One<T>(less: (T, T) -> bool, y: T, x: T): seq<T> {
    if !less(y, x) && !less(x, y) then [y] else []
  }

  lemma AlikeCons<T>(less: (T, T) -> bool, y: T, s: seq<T>, x: T)
    ensures Alike(less, [y] + s, x) == One(less, y, x) + Alike(less, s, x)
  {
    assert ([y] + s)[1..] == s;
  }

  lemma AlikeNone<T>(less: (T, T) -> bool, x: T)
    ensures Alike(less, [], x) == []
  {
  }

  /** The same elements, with elements the order cannot tell apart left in order. */
  ghost predicate StableRearrangement<T>(less: (T, T) -> bool, s: seq<T>, r: seq<T>) {
    && multiset(r) == multiset(s)
    && forall x :: x in s ==> Alike(less, r, x) == Alike(less, s, x)
  }

  ghost function Merge<T>(less: (T, T) -> bool, a: seq<T>, b: seq<T>): (r: seq<T>)
    ensures |r| == |a| + |b|
  {
    if a == [] then b
    else if b == [] then a
    else if !less(b[0], a[0]) then [a[0]] + Merge(less, a[1..], b)
    else [b[0]] + Merge(less, a, b[1..])
  }

  lemma {:induction false} MergePermutes<T>(less: (T, T) -> bool, a: seq<T>, b: seq<T>)
    ensures multiset(Merge(less, a, b)) == multiset(a) + multiset(b)
  {
    hide Merge;
    if a == [] || b == [] {
      MergeEmpty(less, a, b);
    } else if !less(b[0], a[0]) {
      MergeTakesLeft(less, a, b);
      MergePermutes(less, a[1..], b);
      assert multiset(a) == multiset([a[0]]) + multiset(a[1..]);
    } else {
      MergeTakesRight(less, a, b);
      MergePermutes(less, a, b[1..]);
      assert multiset(b) == multiset([b[0]]) + multiset(b[1..]);
    }
  }

  lemma MergeMembers<T>(less: (T, T) -> bool, a: seq<T>, b: seq<T>, x: T)
    ensures x in Merge(less, a, b) <==> x in a || x in b
  {
    MergePermutes(less, a, b);
    assert x in multiset(Merge(less, a, b)) <==> x in multiset(a) + multiset(b);
  }

  lemma {:induction false} MergeSorts<T>(less: (T, T) -> bool, a: seq<T>, b: seq<T>, u: seq<T>)
    requires StrictWeak(less, u) && (forall x :: x in a ==> x in u) && (forall x :: x in b ==> x in u)
    requires Sorted(less, a) && Sorted(less, b)
    ensures Sorted(less, Merge(less, a, b))
  {
    if a == [] || b == [] {
    } else if !less(b[0], a[0]) {
      var rest := Merge(less, a[1..], b);
      MergeSorts(less, a[1..], b, u);
      forall x | x in rest
        ensures !less(x, a[0])
      {
        MergeMembers(less, a[1..], b, x);
        assert a[0] in a && b[0] in b;
        if x in b { FirstIsLeast(less, b, x); }
      }
      assert Merge(less, a, b) == [a[0]] + rest;
      ConsSorted(less, a[0], rest);
    } else {
      var rest := Merge(less, a, b[1..]);
      MergeSorts(less, a, b[1..], u);
      forall x | x in rest
        ensures !less(x, b[0])
      {
        MergeMembers(less, a, b[1..], x);
        assert a[0] in a && b[0] in b;
        if x in a { FirstIsLeast(less, a, x); }
      }
      assert Merge(less, a, b) == [b[0]] + rest;
      ConsSorted(less, b[0], rest);
    }
  }

  lemma FirstIsLeast<T>(less: (T, T) -> bool, s: seq<T>, x: T)
    requires Sorted(less, s) && x in s
    ensures x == s[0] || !less(x, s[0])
  {
  }

  lemma ConsSorted<T>(less: (T, T) -> bool, x: T, s: seq<T>)
    requires Sorted(less, s) && forall y :: y in s ==> !less(y, x)
    ensures Sorted(less, [x] + s)
  {
  }

  lemma {:induction false} AlikeConcat<T>(less: (T, T) -> bool, s: seq<T>, t: seq<T>, x: T)
    ensures Alike(less, s + t, x) == Alike(less, s, x) + Alike(less, t, x)
  {
    hide Alike, One;
    if s == [] {
      assert s + t == t;
      AlikeNone(less, x);
    } else {
      var y, s' := s[0], s[1..];
      assert s == [y] + s' && s + t == [y] + (s' + t);
      AlikeCons(less, y, s', x);
      AlikeCons(less, y, s' + t, x);
      AlikeConcat(less, s', t, x);
      assert One(less, y, x) + (Alike(less, s', x) + Alike(less, t, x))
          == (One(less, y, x) + Alike(less, s', x)) + Alike(less, t, x);
    }
  }

  lemma {:induction false} NoneAlike<T>(less: (T, T) -> bool, s: seq<T>, x: T)
    requires forall y :: y in s ==> less(y, x) || less(x, y)
    ensures Alike(less, s, x) == []
  {
    if s != [] { NoneAlike(less, s[1..], x); }
  }

  lemma MergeTakesLeft<T>(less: (T, T) -> bool, a: seq<T>, b: seq<T>)
    requires a != [] && b != [] && !less(b[0], a[0])
    ensures Merge(less, a, b) == [a[0]] + Merge(less, a[1..], b) && a == [a[0]] + a[1..]
  {
  }

  lemma MergeTakesRight<T>(less: (T, T) -> bool, a: seq<T>, b: seq<T>)
    requires a != [] && b != [] && less(b[0], a[0])
    ensures Merge(less, a, b) == [b[0]] + Merge(less, a, b[1..]) && b == [b[0]] + b[1..]
  {
  }

  lemma MergeEmpty<T>(less: (T, T) -> bool, a: seq<T>, b: seq<T>)
    requires a == [] || b == []
    ensures Merge(less, a, b) == a + b
  {
  }

  /** An element of b that goes first is unlike everything in a. */
  lemma JumpsOverUnlike<T>(less: (T, T) -> bool, a: seq<T>, y: T, u: seq<T>, x: T)
    requires StrictWeak(less, u) && (forall z :: z in a ==> z in u) && y in u && x in u
    requires a != [] && Sorted(less, a) && less(y, a[0]) && !less(y, x) && !less(x, y)
    ensures forall z :: z in a ==> less(x, z)
  {
    forall z | z in a
      ensures less(x, z)
    {
      FirstIsLeast(less, a, z);
      assert a[0] in a;
    }
  }

  /** Merging a sorted run with the run after it keeps elements the order cannot tell apart in order. */
  lemma {:induction false} MergeStable<T>(less: (T, T) -> bool, a: seq<T>, b: seq<T>, u: seq<T>, x: T)
    requires StrictWeak(less, u) && (forall y :: y in a ==> y in u) && (forall y :: y in b ==> y in u) && x in u
    requires Sorted(less, a)
    ensures Alike(less, Merge(less, a, b), x) == Alike(less, a, x) + Alike(less, b, x)
  {
    hide Alike, Merge, StrictWeak;
    if a == [] || b == [] {
      MergeEmpty(less, a, b);
      AlikeConcat(less, a, b, x);
    } else if !less(b[0], a[0]) {
      MergeTakesLeft(less, a, b);
      MergeStable(less, a[1..], b, u, x);
      AlikeCons(less, a[0], Merge(less, a[1..], b), x);
      AlikeCons(less, a[0], a[1..], x);
    } else {
      MergeTakesRight(less, a, b);
      MergeStable(less, a, b[1..], u, x);
      AlikeCons(less, b[0], Merge(less, a, b[1..]), x);
      AlikeCons(less, b[0], b[1..], x);
      assert b[0] in b;
      if !less(b[0], x) && !less(x, b[0]) {
        JumpsOverUnlike(less, a, b[0], u, x);
        NoneAlike(less, a, x);
      }
    }
  }

  // ---- Rearrangements in context ----

  lemma RearrangementTrans<T>(less: (T, T) -> bool, s: seq<T>, r: seq<T>, q: seq<T>)
    requires StableRearrangement(less, s, r) && StableRearrangement(less, r, q)
    ensures StableRearrangement(less, s, q)
  {
    hide Alike;
    forall x | x in s
      ensures Alike(less, q, x) == Alike(less, s, x)
    {
      assert x in multiset(s);
      assert x in multiset(r);
      assert x in r;
    }
  }

  /** Merging two adjacent stretches of a sequence, the first of them sorted. */
  lemma MergeInPlace<T>(less: (T, T) -> bool, x: seq<T>, a: seq<T>, b: seq<T>, y: seq<T>)
    requires StrictWeak(less, x + a + b + y) && Sorted(less, a)
    ensures StableRearrangement(less, x + a + b + y, x + Merge(less, a, b) + y)
  {
    hide Alike, Merge, StrictWeak, Sorted;
    var s := x + a + b + y;
    var r := x + Merge(less, a, b) + y;
    MergePermutes(less, a, b);
    forall z | z in s
      ensures Alike(less, r, z) == Alike(less, s, z)
    {
      MergeStable(less, a, b, s, z);
      AlikeConcat(less, x + a + b, y, z);
      AlikeConcat(less, x + a, b, z);
      AlikeConcat(less, x, a, z);
      AlikeConcat(less, x + Merge(less, a, b), y, z);
      AlikeConcat(less, x, Merge(less, a, b), z);
      assert Alike(less, x, z) + Alike(less, a, z) + Alike(less, b, z)
          == Alike(less, x, z) + (Alike(less, a, z) + Alike(less, b, z));
    }
  }

  lemma SubStrictWeak<T>(less: (T, T) -> bool, s: seq<T>, r: seq<T>)
    requires StrictWeak(less, s) && multiset(r) == multiset(s)
    ensures StrictWeak(less, r)
  {
    assert forall x :: x in r ==> x in multiset(r);
    assert forall x :: x in r ==> x in s;
  }

  // ---- Counting runs ----

  /** Each element is not less than the one before it. */
  ghost predicate IsRun<T>(less: (T, T) -> bool, s: seq<T>) {
    forall i :: 0 < i < |s| ==> !less(s[i], s[i - 1])
  }

  lemma {:induction false} RunIsSorted<T>(less: (T, T) -> bool, s: seq<T>, u: seq<T>)
    requires StrictWeak(less, u) && (forall x :: x in s ==> x in u) && IsRun(less, s)
    ensures Sorted(less, s)
  {
    if s != [] {
      var k := |s| - 1;
      var front := s[..k];
      RunIsSorted(less, front, u);
      forall i | 0 <= i < k
        ensures !less(s[k], s[i])
      {
        assert s[i] in u && s[k] in u && s[k - 1] in u;
        if i < k - 1 { assert !less(front[k - 1], front[i]); }
      }
      forall i, j | 0 <= i < j < |s|
        ensures !less(s[j], s[i])
      {
        if j < k { assert !less(front[j], front[i]); }
      }
    }
  }

  ghost function Descents<T>(less: (T, T) -> bool, s: seq<T>): (n: int)
    ensures 0 <= n
  {
    if |s| < 2 then 0
    else Descents(less, s[..|s| - 1]) + if less(s[|s| - 1], s[|s| - 2]) then 1 else 0
  }

  /** The number of natural runs. */
  ghost function RunCount<T>(less: (T, T) -> bool, s: seq<T>): int {
    if s == [] then 0 else 1 + Descents(less, s)
  }

  lemma {:induction false} DescentsConcat<T>(less: (T, T) -> bool, s: seq<T>, t: seq<T>)
    requires s != [] && t != []
    ensures Descents(less, s + t) == Descents(less, s) + Descents(less, t) + if less(t[0], s[|s| - 1]) then 1 else 0
  {
    var k := |t| - 1;
    if k == 0 {
      assert (s + t)[..|s|] == s;
    } else {
      DescentsConcat(less, s, t[..k]);
      assert (s + t)[..|s| + k] == s + t[..k];
    }
  }

  lemma {:induction false} RunHasNoDescents<T>(less: (T, T) -> bool, s: seq<T>)
    ensures IsRun(less, s) <==> Descents(less, s) == 0
  {
    if |s| >= 2 {
      var front := s[..|s| - 1];
      RunHasNoDescents(less, front);
      assert forall i :: 0 <= i < |front| ==> front[i] == s[i];
      if Descents(less, s) == 0 {
        forall i | 0 < i < |s|
          ensures !less(s[i], s[i - 1])
        {
          if i < |front| { assert !less(front[i], front[i - 1]); }
        }
      }
    }
  }

  lemma AppendRun<T>(less: (T, T) -> bool, s: seq<T>, t: seq<T>)
    requires IsRun(less, t)
    ensures RunCount(less, s + t) <= RunCount(less, s) + 1
  {
    RunHasNoDescents(less, t);
    if s == [] { assert s + t == t; }
    else if t == [] { assert s + t == s; }
    else { DescentsConcat(less, s, t); }
  }

  /** A run cut off at a descent is one run of the whole. */
  lemma LeadingRun<T>(less: (T, T) -> bool, s: seq<T>, t: seq<T>)
    requires s != [] && IsRun(less, s) && (t != [] ==> less(t[0], s[|s| - 1]))
    ensures RunCount(less, s + t) == 1 + RunCount(less, t)
  {
    RunHasNoDescents(less, s);
    if t == [] { assert s + t == s; }
    else { DescentsConcat(less, s, t); }
  }

  lemma SortedIsRun<T>(less: (T, T) -> bool, s: seq<T>)
    requires Sorted(less, s)
    ensures IsRun(less, s)
  {
  }

  /** s once the merge of [p, q) and [q, n), begun at p, has been carried out. */
  ghost function Finished<T>(less: (T, T) -> bool, s: seq<T>, p: int, q: int, n: int): (r: seq<T>)
    requires 0 <= p <= q <= n <= |s|
    ensures |r| == |s|
  {
    s[..p] + Merge(less, s[p..q], s[q..n]) + s[n..]
  }

  /** s with the element at q moved to just before the one at p. */
  ghost function Hoisted<T>(s: seq<T>, p: int, q: int): (r: seq<T>)
    requires 0 <= p <= q < |s|
    ensures |r| == |s| && multiset(r) == multiset(s)
  {
    HoistedKeeps(s, p, q);
    s[..p] + [s[q]] + s[p..q] + s[q + 1..]
  }

  lemma HoistedKeeps<T>(s: seq<T>, p: int, q: int)
    requires 0 <= p <= q < |s|
    ensures multiset(s[..p] + [s[q]] + s[p..q] + s[q + 1..]) == multiset(s)
  {
    assert s == s[..p] + s[p..q] + [s[q]] + s[q + 1..];
  }

  lemma KeepsLeft<T>(less: (T, T) -> bool, s: seq<T>, p: int, q: int, n: int)
    requires 0 <= p < q < n <= |s| && !less(s[q], s[p])
    ensures Finished(less, s, p, q, n) == Finished(less, s, p + 1, q, n)
  {
    hide Merge;
    MergeTakesLeft(less, s[p..q], s[q..n]);
    assert s[p..q][1..] == s[p + 1..q] && s[..p + 1] == s[..p] + [s[p]];
    assert s[..p] + ([s[p]] + Merge(less, s[p + 1..q], s[q..n])) == s[..p + 1] + Merge(less, s[p + 1..q], s[q..n]);
  }

  lemma MovesRight<T>(less: (T, T) -> bool, s: seq<T>, p: int, q: int, n: int)
    requires 0 <= p < q < n <= |s| && less(s[q], s[p])
    ensures Finished(less, s, p, q, n) == Finished(less, Hoisted(s, p, q), p + 1, q + 1, n)
  {
    hide Merge;
    var h := Hoisted(s, p, q);
    MergeTakesRight(less, s[p..q], s[q..n]);
    assert s[q..n][1..] == s[q + 1..n];
    assert h[..p + 1] == s[..p] + [s[q]] && h[p + 1..q + 1] == s[p..q];
    assert h[q + 1..n] == s[q + 1..n] && h[n..] == s[n..];
    assert s[..p] + ([s[q]] + Merge(less, s[p..q], s[q + 1..n])) == h[..p + 1] + Merge(less, s[p..q], s[q + 1..n]);
  }

  lemma NothingLeft<T>(less: (T, T) -> bool, s: seq<T>, p: int, q: int, n: int)
    requires 0 <= p <= q <= n <= |s| && (p == q || q == n)
    ensures Finished(less, s, p, q, n) == s
  {
    MergeEmpty(less, s[p..q], s[q..n]);
    assert s == s[..p] + (s[p..q] + s[q..n]) + s[n..];
  }

  /** Two adjacent natural runs, ending at a descent or at the end of the sequence. */
  ghost predicate TwoRuns<T>(less: (T, T) -> bool, s: seq<T>, p: int, q: int, n: int) {
    && 0 <= p < q < n <= |s|
    && IsRun(less, s[p..q]) && less(s[q], s[q - 1])
    && IsRun(less, s[q..n]) && (n < |s| ==> less(s[n], s[n - 1]))
  }

  lemma MergedStable<T>(less: (T, T) -> bool, s: seq<T>, p: int, q: int, n: int)
    requires StrictWeak(less, s) && TwoRuns(less, s, p, q, n)
    ensures StableRearrangement(less, s, Finished(less, s, p, q, n))
  {
    hide StrictWeak, Merge, StableRearrangement;
    assert s == s[..p] + s[p..q] + s[q..n] + s[n..];
    RunIsSorted(less, s[p..q], s);
    MergeInPlace(less, s[..p], s[p..q], s[q..n], s[n..]);
  }

  /** One merge makes two runs into one: what lies before n gains at most one run, and two runs are used up. */
  lemma MergedRuns<T>(less: (T, T) -> bool, s: seq<T>, p: int, q: int, n: int)
    requires StrictWeak(less, s) && TwoRuns(less, s, p, q, n)
    ensures var r := Finished(less, s, p, q, n);
      r[n..] == s[n..] && RunCount(less, r[..n]) <= RunCount(less, s[..p]) + 1
    ensures RunCount(less, s[p..]) == 2 + RunCount(less, s[n..])
  {
    hide StrictWeak, Merge, Descents, RunCount;
    var m := Merge(less, s[p..q], s[q..n]);
    RunIsSorted(less, s[p..q], s);
    RunIsSorted(less, s[q..n], s);
    MergeSorts(less, s[p..q], s[q..n], s);
    SortedIsRun(less, m);
    AppendRun(less, s[..p], m);
    assert Finished(less, s, p, q, n)[..n] == s[..p] + m;
    assert s[p..] == s[p..q] + s[q..] && s[q..] == s[q..n] + s[n..];
    LeadingRun(less, s[q..n], s[n..]);
    LeadingRun(less, s[p..q], s[q..]);
  }

  /** A run that reaches the end is the last one. */
  lemma LastRun<T>(less: (T, T) -> bool, s: seq<T>, p: int)
    requires 0 <= p < |s| && IsRun(less, s[p..])
    ensures RunCount(less, s[p..]) == 1 && RunCount(less, s) <= RunCount(less, s[..p]) + 1
  {
    RunHasNoDescents(less, s[p..]);
    AppendRun(less, s[..p], s[p..]);
    assert s == s[..p] + s[p..];
  }

  lemma OneRunIsSorted<T>(less: (T, T) -> bool, s: seq<T>)
    requires StrictWeak(less, s) && RunCount(less, s) <= 1
    ensures Sorted(less, s)
  {
    RunHasNoDescents(less, s);
    RunIsSorted(less, s, s);
  }

  /** A sorted stable rearrangement is the only one, so the three promises of the sort fix its result. */
  lemma {:induction false} StableSortUnique<T>(less: (T, T) -> bool, s: seq<T>, r: seq<T>, u: seq<T>)
    requires StrictWeak(less, u) && (forall x :: x in s ==> x in u)
    requires Sorted(less, s) && Sorted(less, r) && multiset(r) == multiset(s)
    requires forall x :: x in u ==> Alike(less, r, x) == Alike(less, s, x)
    ensures r == s
  {
    hide Alike, StrictWeak, Sorted;
    if s == [] {
      assert |multiset(s)| == 0;
    } else {
      SameHead(less, s, r, u);
      var s', r' := s[1..], r[1..];
      assert s == [s[0]] + s' && r == [s[0]] + r';
      forall x | x in u
        ensures Alike(less, r', x) == Alike(less, s', x)
      {
        AlikeCons(less, s[0], s', x);
        AlikeCons(less, s[0], r', x);
        Cancel(One(less, s[0], x), Alike(less, s', x), Alike(less, r', x));
      }
      assert multiset(s') == multiset(s) - multiset([s[0]]) && multiset(r') == multiset(r) - multiset([s[0]]);
      TailSorted(less, s);
      TailSorted(less, r);
      StableSortUnique(less, s', r', u);
    }
  }

  lemma Cancel<T>(a: seq<T>, b: seq<T>, c: seq<T>)
    requires a + b == a + c
    ensures b == c
  {
    assert (a + b)[|a|..] == b && (a + c)[|a|..] == c;
  }

  lemma TailSorted<T>(less: (T, T) -> bool, s: seq<T>)
    requires Sorted(less, s) && s != []
    ensures Sorted(less, s[1..])
  {
  }

  lemma SameHead<T>(less: (T, T) -> bool, s: seq<T>, r: seq<T>, u: seq<T>)
    requires StrictWeak(less, u) && (forall x :: x in s ==> x in u) && s != []
    requires Sorted(less, s) && Sorted(less, r) && multiset(r) == multiset(s)
    requires forall x :: x in u ==> Alike(less, r, x) == Alike(less, s, x)
    ensures r != [] && r[0] == s[0]
  {
    hide Alike;
    assert s[0] in multiset(s) && s[0] in multiset(r);
    assert s[0] in r && r[0] in multiset(r) && r[0] in s;
    FirstIsLeast(less, s, r[0]);
    FirstIsLeast(less, r, s[0]);
    assert s == [s[0]] + s[1..] && r == [r[0]] + r[1..];
    AlikeCons(less, s[0], s[1..], s[0]);
    AlikeCons(less, r[0], r[1..], s[0]);
    assert Alike(less, s, s[0])[0] == s[0] && Alike(less, r, s[0])[0] == r[0];
  }

  lemma Unmoved<T>(less: (T, T) -> bool, s: seq<T>)
    ensures StableRearrangement(less, s, s) && s[..0] == [] && s[0..] == s && RunCount(less, s[..0]) == 0
  {
  }

  lemma StableKeepsOrder<T>(less: (T, T) -> bool, s: seq<T>, r: seq<T>)
    requires StrictWeak(less, s) && StableRearrangement(less, s, r)
    ensures StrictWeak(less, r)
  {
    SubStrictWeak(less, s, r);
  }

  lemma NoRuns<T>(less: (T, T) -> bool)
    ensures RunCount(less, []) == 0
  {
  }

  lemma RunCountNonNegative<T>(less: (T, T) -> bool, s: seq<T>)
    ensures RunCount(less, s) >= 0
  {
  }
}
