/** One process's part in a round of log pruning: it packs the ids of its completed receives by
    sender, matches its completed sends against what the destinations packed, and marks its own
    receives from what comes back. */
module MessageLog {
  import opened FailureRemap
  import Framing

  datatype Kind = Send | Recv | Other

  /** `done` stands for completecmp && completerep && req == NULL. */
  /** `bytes`: how much the stored copy of a message takes. */
  datatype Rec = Rec(kind: Kind, target: int, id: int, done: bool, delcmp: bool, delrep: bool, bytes: int)

  /** Rank t runs a copy of compute rank c. */
  ghost predicate CopyOf(nC: int, ctr: seq<int>, t: int, c: int)
    requires 0 <= c < |ctr|
  {
    t == c || (ctr[c] != NONE && t == nC + ctr[c])
  }

  /** Ids are never negative, and the partner of every completed message is a compute rank. */
  ghost predicate LogOk(nC: int, log: seq<Rec>) {
    forall i :: 0 <= i < |log| ==> 0 <= log[i].id && (log[i].kind != Other && log[i].done ==> 0 <= log[i].target < nC)
  }

  predicate Reported(x: Rec) { x.kind == Recv && x.done }

  /** The ids this process reports to rank t: completed receives from a rank t is a copy of, in log order. */
  ghost function Segment(nC: int, ctr: seq<int>, log: seq<Rec>, t: int): seq<int>
    requires nC == |ctr| && LogOk(nC, log)
  {
    if log == [] then [] else
      var x := log[|log| - 1];
      assert LogOk(nC, log[..|log| - 1]);
      Segment(nC, ctr, log[..|log| - 1], t)
      + if Reported(x) && CopyOf(nC, ctr, t, x.target) then [x.id] else []
  }

  lemma LogOkPrefix(nC: int, log: seq<Rec>, k: int)
    requires LogOk(nC, log) && 0 <= k <= |log|
    ensures LogOk(nC, log[..k])
  {
  }

  lemma SegmentStep(nC: int, ctr: seq<int>, log: seq<Rec>, k: int, t: int)
    requires nC == |ctr| && LogOk(nC, log) && 0 <= k < |log|
    ensures LogOk(nC, log[..k]) && LogOk(nC, log[..k + 1])
    ensures Segment(nC, ctr, log[..k + 1], t)
         == Segment(nC, ctr, log[..k], t)
            + if Reported(log[k]) && CopyOf(nC, ctr, t, log[k].target) then [log[k].id] else []
  {
    assert log[..k + 1][..k] == log[..k];
  }

  /** The ids of an earlier part of the log come first. */
  lemma {:induction false} SegmentInLogOrder(nC: int, ctr: seq<int>, a: seq<Rec>, b: seq<Rec>, t: int)
    requires nC == |ctr| && LogOk(nC, a) && LogOk(nC, b) && LogOk(nC, a + b)
    ensures Segment(nC, ctr, a + b, t) == Segment(nC, ctr, a, t) + Segment(nC, ctr, b, t)
  {
    if b == [] {
      assert a + b == a;
    } else {
      var k := |b| - 1;
      LogOkPrefix(nC, b, k);
      LogOkPrefix(nC, a + b, |a| + k);
      assert (a + b)[..|a| + k] == a + b[..k];
      SegmentInLogOrder(nC, ctr, a, b[..k], t);
    }
  }

  /** Exactly the reported ids appear in the segment. */
  lemma {:induction false} SegmentHolds(nC: int, ctr: seq<int>, log: seq<Rec>, t: int, id: int)
    requires nC == |ctr| && LogOk(nC, log)
    ensures id in Segment(nC, ctr, log, t)
        <==> exists i :: 0 <= i < |log| && Reported(log[i]) && log[i].id == id && CopyOf(nC, ctr, t, log[i].target)
  {
    if log != [] {
      var k := |log| - 1;
      SegmentHolds(nC, ctr, log[..k], t, id);
      SegmentStep(nC, ctr, log, k, t);
      assert log[..k + 1] == log;
      if i :| 0 <= i < |log| && Reported(log[i]) && log[i].id == id && CopyOf(nC, ctr, t, log[i].target) {
        if i < k { assert log[..k][i] == log[i]; }
      }
    }
  }

  // ---- Counting, displacements, packing ----

  ghost function Sum(s: seq<int>): int {
    if s == [] then 0 else Sum(s[..|s| - 1]) + s[|s| - 1]
  }

  lemma {:induction false} SumMonotone(s: seq<int>, j: int, k: int)
    requires 0 <= j <= k <= |s| && forall i :: 0 <= i < |s| ==> 0 <= s[i]
    ensures 0 <= Sum(s[..j]) <= Sum(s[..k])
  {
    if j < k {
      SumMonotone(s, j, k - 1);
      assert s[..k][..k - 1] == s[..k - 1];
    } else if j > 0 {
      SumMonotone(s, j - 1, j - 1);
      assert s[..j][..j - 1] == s[..j - 1];
    }
  }

  /** buf holds the segments one after another, where counts and displs say. */
  ghost predicate Packed(buf: seq<int>, counts: seq<int>, displs: seq<int>, segs: seq<seq<int>>) {
    && |counts| == |displs| == |segs|
    && (forall t :: 0 <= t < |segs| ==> counts[t] == |segs[t]| && 0 <= displs[t] && displs[t] + counts[t] <= |buf|)
    && (forall t :: 0 <= t < |segs| ==> buf[displs[t]..displs[t] + counts[t]] == segs[t])
    && (forall t, u :: 0 <= t < u < |segs| ==> displs[t] + counts[t] <= displs[u])
  }

  method CountReceives(log: seq<Rec>, nC: int, nR: int, ctr: seq<int>, ghost rtc: seq<int>)
    returns (recvnums: array<int>)
    requires Paired(nC, nR, ctr, rtc) && LogOk(nC, log)
    ensures fresh(recvnums) && recvnums.Length == nC + nR
    ensures forall t :: 0 <= t < nC + nR ==> recvnums[t] == |Segment(nC, ctr, log, t)|
  {
    recvnums := new int[nC + nR](i => 0);
    for k := 0 to |log|
      invariant LogOk(nC, log[..k])
      invariant forall t :: 0 <= t < nC + nR ==> recvnums[t] == |Segment(nC, ctr, log[..k], t)|
    {
      forall t ensures LogOk(nC, log[..k + 1]) && Segment(nC, ctr, log[..k + 1], t)
         == Segment(nC, ctr, log[..k], t)
            + if Reported(log[k]) && CopyOf(nC, ctr, t, log[k].target) then [log[k].id] else [] {
        SegmentStep(nC, ctr, log, k, t);
      }
      if log[k].kind == Recv && log[k].done {
        recvnums[log[k].target] := recvnums[log[k].target] + 1;
        if ctr[log[k].target] != NONE {
          recvnums[ctr[log[k].target] + nC] := recvnums[ctr[log[k].target] + nC] + 1;
        }
      }
    }
    assert log[..|log|] == log;
  }

  method Displacements(counts: array<int>) returns (displs: array<int>)
    ensures fresh(displs) && displs.Length == counts.Length
    ensures forall t :: 0 <= t < counts.Length ==> displs[t] == Sum(counts[..t])
  {
    displs := new int[counts.Length];
    if counts.Length == 0 { return; }
    displs[0] := 0;
    for i := 1 to counts.Length
      invariant forall t :: 0 <= t < i ==> displs[t] == Sum(counts[..t])
    {
      assert counts[..i][..i - 1] == counts[..i - 1];
      displs[i] := displs[i - 1] + counts[i - 1];
    }
  }

  /** All the segments of a log, by rank. */
  ghost function Segments(nC: int, nR: int, ctr: seq<int>, log: seq<Rec>): seq<seq<int>>
    requires nC == |ctr| && 0 <= nR && LogOk(nC, log)
  {
    seq(nC + nR, t => Segment(nC, ctr, log, t))
  }

  /** Segment t is filled with parts[t], which may still fall short of counts[t]. */
  ghost predicate Filling(buf: seq<int>, counts: seq<int>, displs: seq<int>, parts: seq<seq<int>>) {
    && |counts| == |displs| == |parts|
    && (forall t :: 0 <= t < |parts| ==> |parts[t]| <= counts[t] && 0 <= displs[t] && displs[t] + counts[t] <= |buf|)
    && (forall t :: 0 <= t < |parts| ==> buf[displs[t]..displs[t] + |parts[t]|] == parts[t])
    && (forall t, u :: 0 <= t < u < |parts| ==> displs[t] + counts[t] <= displs[u])
  }

  lemma FillStep(buf: seq<int>, counts: seq<int>, displs: seq<int>, parts: seq<seq<int>>, t: int, v: int)
    requires Filling(buf, counts, displs, parts) && 0 <= t < |parts| && |parts[t]| < counts[t]
    ensures 0 <= displs[t] + |parts[t]| < |buf|
    ensures Filling(buf[displs[t] + |parts[t]| := v], counts, displs, parts[t := parts[t] + [v]])
  {
    var buf' := buf[displs[t] + |parts[t]| := v];
    var parts' := parts[t := parts[t] + [v]];
    forall u | 0 <= u < |parts|
      ensures buf'[displs[u]..displs[u] + |parts'[u]|] == parts'[u]
    {
      assert u < t || u == t || t < u;
      assert buf[displs[u]..displs[u] + |parts[u]|] == parts[u];
    }
  }

  lemma SegmentGrows(nC: int, ctr: seq<int>, log: seq<Rec>, k: int, t: int)
    requires nC == |ctr| && LogOk(nC, log) && 0 <= k <= |log|
    ensures LogOk(nC, log[..k]) && |Segment(nC, ctr, log[..k], t)| <= |Segment(nC, ctr, log, t)|
    decreases |log| - k
  {
    if k < |log| {
      SegmentStep(nC, ctr, log, k, t);
      SegmentGrows(nC, ctr, log, k + 1, t);
    } else {
      assert log[..k] == log;
    }
  }

  /** What one record adds to the segments. */
  ghost function Extended(nC: int, ctr: seq<int>, parts: seq<seq<int>>, x: Rec): seq<seq<int>>
    requires nC == |ctr|
    requires Reported(x) ==>
      0 <= x.target < nC <= |parts| && (ctr[x.target] != NONE ==> 0 <= nC + ctr[x.target] < |parts|)
  {
    if !Reported(x) then parts else
      var p1 := parts[x.target := parts[x.target] + [x.id]];
      if ctr[x.target] == NONE then p1
      else p1[nC + ctr[x.target] := p1[nC + ctr[x.target]] + [x.id]]
  }

  lemma SegmentsStep(nC: int, nR: int, ctr: seq<int>, rtc: seq<int>, log: seq<Rec>, k: int)
    requires Paired(nC, nR, ctr, rtc) && LogOk(nC, log) && 0 <= k < |log|
    ensures LogOk(nC, log[..k]) && LogOk(nC, log[..k + 1])
    ensures Reported(log[k]) ==>
      0 <= log[k].target < nC && (ctr[log[k].target] != NONE ==> 0 <= ctr[log[k].target] < nR)
    ensures Segments(nC, nR, ctr, log[..k + 1]) == Extended(nC, ctr, Segments(nC, nR, ctr, log[..k]), log[k])
  {
    SegmentStep(nC, ctr, log, k, 0);
    var p' := Segments(nC, nR, ctr, log[..k + 1]);
    var q := Extended(nC, ctr, Segments(nC, nR, ctr, log[..k]), log[k]);
    forall t | 0 <= t < nC + nR
      ensures p'[t] == q[t]
    {
      SegmentStep(nC, ctr, log, k, t);
      var s := Segment(nC, ctr, log[..k], t);
      assert s + [] == s;
    }
  }

  lemma SumAbove(counts: seq<int>, t: int, u: int)
    requires 0 <= t < u <= |counts| && forall i :: 0 <= i < |counts| ==> 0 <= counts[i]
    ensures 0 <= Sum(counts[..t]) && Sum(counts[..t]) + counts[t] <= Sum(counts[..u])
  {
    assert counts[..t + 1][..t] == counts[..t];
    SumMonotone(counts, t + 1, u);
    SumMonotone(counts, t, t + 1);
  }

  lemma StartFilling(n: int, counts: seq<int>, displs: seq<int>, buf: seq<int>, parts: seq<seq<int>>)
    requires n == |counts| == |displs| == |parts| && |buf| == Sum(counts)
    requires forall t :: 0 <= t < n ==> 0 <= counts[t] && displs[t] == Sum(counts[..t]) && parts[t] == []
    ensures Filling(buf, counts, displs, parts)
  {
    hide Sum;
    assert counts[..n] == counts;
    forall t | 0 <= t < n
      ensures 0 <= displs[t] && displs[t] + counts[t] <= |buf|
    {
      SumAbove(counts, t, n);
    }
    forall t, u | 0 <= t < u < n
      ensures displs[t] + counts[t] <= displs[u]
    {
      SumAbove(counts, t, u);
    }
  }

  lemma FilledIsPacked(buf: seq<int>, counts: seq<int>, displs: seq<int>, segs: seq<seq<int>>)
    requires Filling(buf, counts, displs, segs) && forall t :: 0 <= t < |segs| ==> counts[t] == |segs[t]|
    ensures Packed(buf, counts, displs, segs)
  {
  }

  method ArraySum(a: array<int>) returns (sum: int)
    ensures sum == Sum(a[..])
  {
    sum := 0;
    for i := 0 to a.Length
      invariant sum == Sum(a[..i])
    {
      assert a[..i + 1][..i] == a[..i];
      sum := sum + a[i];
    }
    assert a[..a.Length] == a[..];
  }

  ghost predicate Counts(indices: seq<int>, parts: seq<seq<int>>) {
    |indices| == |parts| && forall t :: 0 <= t < |parts| ==> indices[t] == |parts[t]|
  }

  method PutId(buf: array<int>, indices: array<int>, displs: array<int>, t: int, id: int,
               ghost counts: seq<int>, ghost parts: seq<seq<int>>)
    requires Filling(buf[..], counts, displs[..], parts) && Counts(indices[..], parts)
    requires buf != indices && buf != displs && indices != displs
    requires 0 <= t < |parts| && |counts| == |parts| && |parts[t]| < counts[t]
    modifies buf, indices
    ensures Filling(buf[..], counts, displs[..], parts[t := parts[t] + [id]])
    ensures Counts(indices[..], parts[t := parts[t] + [id]])
  {
    ghost var b0 := buf[..];
    FillStep(b0, counts, displs[..], parts, t, id);
    buf[displs[t] + indices[t]] := id;
    assert buf[..] == b0[displs[t] + |parts[t]| := id];
    indices[t] := indices[t] + 1;
  }

  /** Write one record's id to the segments of both copies of its sender. */
  method PlaceRecord(x: Rec, nC: int, nR: int, ctr: seq<int>, ghost rtc: seq<int>, buf: array<int>, indices: array<int>,
                     displs: array<int>, ghost counts: seq<int>, ghost parts: seq<seq<int>>)
    requires Paired(nC, nR, ctr, rtc) && (Reported(x) ==> 0 <= x.target < nC)
    requires Filling(buf[..], counts, displs[..], parts) && Counts(indices[..], parts) && |counts| == |parts| == nC + nR
    requires buf != indices && buf != displs && indices != displs
    requires forall t :: 0 <= t < nC + nR ==> |Extended(nC, ctr, parts, x)[t]| <= counts[t]
    modifies buf, indices
    ensures Filling(buf[..], counts, displs[..], Extended(nC, ctr, parts, x))
    ensures Counts(indices[..], Extended(nC, ctr, parts, x))
  {
    hide Filling, Counts;
    if x.kind == Recv && x.done {
      var c := x.target;
      ghost var e := Extended(nC, ctr, parts, x);
      assert |parts[c]| < |e[c]| <= counts[c];
      PutId(buf, indices, displs, c, x.id, counts, parts);
      if ctr[c] != NONE {
        assert |parts[ctr[c] + nC]| < |e[ctr[c] + nC]| <= counts[ctr[c] + nC];
        PutId(buf, indices, displs, ctr[c] + nC, x.id, counts, parts[c := parts[c] + [x.id]]);
      }
    }
  }

  /** The pack pass writes every id to its place: the segments partition the buffer. */
  method PackIds(log: seq<Rec>, nC: int, nR: int, ctr: seq<int>, ghost rtc: seq<int>, recvnums: array<int>,
                 displs: array<int>)
    returns (buf: array<int>)
    requires Paired(nC, nR, ctr, rtc) && LogOk(nC, log) && recvnums.Length == displs.Length == nC + nR
    requires forall t :: 0 <= t < nC + nR ==>
      recvnums[t] == |Segment(nC, ctr, log, t)| && displs[t] == Sum(recvnums[..t])
    ensures fresh(buf) && buf.Length == Sum(recvnums[..])
    ensures Packed(buf[..], recvnums[..], displs[..], Segments(nC, nR, ctr, log))
  {
    hide Packed, Filling, Segment, Sum, Extended;
    var total := ArraySum(recvnums);
    assert recvnums[..] == recvnums[..nC + nR];
    SumMonotone(recvnums[..], 0, nC + nR);
    buf := new int[total];
    var indices := new int[nC + nR](i => 0);
    ghost var counts, ds := recvnums[..], displs[..];
    EmptySegments(nC, nR, ctr);
    assert log[..0] == [];
    assert forall t :: 0 <= t < nC + nR ==> counts[..t] == recvnums[..t];
    StartFilling(nC + nR, counts, ds, buf[..], Segments(nC, nR, ctr, []));
    for k := 0 to |log|
      invariant LogOk(nC, log[..k]) && recvnums[..] == counts && displs[..] == ds
      invariant Filling(buf[..], counts, ds, Segments(nC, nR, ctr, log[..k]))
      invariant Counts(indices[..], Segments(nC, nR, ctr, log[..k]))
    {
      SegmentsStep(nC, nR, ctr, rtc, log, k);
      RoomLeft(nC, nR, ctr, log, k);
      PlaceRecord(log[k], nC, nR, ctr, rtc, buf, indices, displs, counts, Segments(nC, nR, ctr, log[..k]));
    }
    assert log[..|log|] == log;
    FilledIsPacked(buf[..], counts, ds, Segments(nC, nR, ctr, log));
  }

  lemma EmptySegments(nC: int, nR: int, ctr: seq<int>)
    requires nC == |ctr| && 0 <= nR
    ensures forall t :: 0 <= t < nC + nR ==> Segments(nC, nR, ctr, [])[t] == []
    ensures forall t :: Segment(nC, ctr, [], t) == []
  {
  }

  lemma RoomLeft(nC: int, nR: int, ctr: seq<int>, log: seq<Rec>, k: int)
    requires nC == |ctr| && 0 <= nR && LogOk(nC, log) && 0 <= k < |log|
    ensures LogOk(nC, log[..k]) && LogOk(nC, log[..k + 1])
    ensures forall t :: 0 <= t < nC + nR ==> |Segments(nC, nR, ctr, log[..k + 1])[t]| <= |Segment(nC, ctr, log, t)|
  {
    LogOkPrefix(nC, log, k);
    forall t | 0 <= t < nC + nR
      ensures LogOk(nC, log[..k + 1]) && |Segments(nC, nR, ctr, log[..k + 1])[t]| <= |Segment(nC, ctr, log, t)|
    {
      SegmentGrows(nC, ctr, log, k + 1, t);
    }
    LogOkPrefix(nC, log, k + 1);
  }

  // ---- Matching sends, marking receives, pruning ----

  const TAKEN: int := -1

  ghost function FirstIndex(s: seq<int>, x: int): (i: int)
    ensures -1 <= i < |s|
    ensures i >= 0 ==> s[i] == x && x !in s[..i]
    ensures i < 0 <==> x !in s
  {
    if s == [] then -1
    else
      var k := FirstIndex(s[..|s| - 1], x);
      assert s == s[..|s| - 1] + [s[|s| - 1]];
      if k >= 0 then assert s[..k] == s[..|s| - 1][..k]; k
      else if s[|s| - 1] == x then |s| - 1 else -1
  }

  ghost predicate SegmentsFit(nC: int, nR: int, ctr: seq<int>, rtc: seq<int>, segs: seq<seq<int>>) {
    Paired(nC, nR, ctr, rtc) && |segs| == nC + nR
  }

  /** One send record against the segments: if every copy of the destination reports the id, the
      send is marked and the reported ids are taken. */
  ghost function MatchOne(nC: int, nR: int, ctr: seq<int>, rtc: seq<int>, x: Rec, segs: seq<seq<int>>)
    : (Rec, seq<seq<int>>)
    requires SegmentsFit(nC, nR, ctr, rtc, segs) && (x.kind == Send && x.done ==> 0 <= x.target < nC)
  {
    if !(x.kind == Send && x.done) then (x, segs) else
      var c := x.target;
      var i := FirstIndex(segs[c], x.id);
      var taken := x.(delcmp := true, delrep := true);
      if i < 0 then (x, segs)
      else if ctr[c] == NONE then (taken, segs[c := segs[c][i := TAKEN]])
      else
        var r := nC + ctr[c];
        var j := FirstIndex(segs[r], x.id);
        if j < 0 then (x, segs)
        else (taken, segs[c := segs[c][i := TAKEN]][r := segs[r][j := TAKEN]])
  }

  /** The log and the segments after the first k records have been matched, in log order. */
  ghost function Matched(nC: int, nR: int, ctr: seq<int>, rtc: seq<int>, log: seq<Rec>, segs: seq<seq<int>>, k: int)
    : (m: (seq<Rec>, seq<seq<int>>))
    requires SegmentsFit(nC, nR, ctr, rtc, segs) && LogOk(nC, log) && 0 <= k <= |log|
    ensures |m.0| == |log| && |m.1| == |segs| && m.0[k..] == log[k..]
    decreases k
  {
    if k == 0 then (log, segs)
    else
      var m := Matched(nC, nR, ctr, rtc, log, segs, k - 1);
      var o := MatchOne(nC, nR, ctr, rtc, log[k - 1], m.1);
      assert m.0[k - 1..][1..] == log[k - 1..][1..];
      (m.0[k - 1 := o.0], o.1)
  }

  lemma PackedUpdate(buf: seq<int>, counts: seq<int>, displs: seq<int>, segs: seq<seq<int>>, t: int, i: int, v: int)
    requires Packed(buf, counts, displs, segs) && 0 <= t < |segs| && 0 <= i < |segs[t]|
    ensures 0 <= displs[t] + i < |buf| && buf[displs[t] + i] == segs[t][i]
    ensures Packed(buf[displs[t] + i := v], counts, displs, segs[t := segs[t][i := v]])
  {
    var buf' := buf[displs[t] + i := v];
    assert buf[displs[t]..displs[t] + counts[t]][i] == segs[t][i];
    forall u | 0 <= u < |segs|
      ensures buf'[displs[u]..displs[u] + counts[u]] == segs[t := segs[t][i := v]][u]
    {
      assert u < t || u == t || t < u;
      assert buf[displs[u]..displs[u] + counts[u]] == segs[u];
    }
  }

  method FindId(buf: array<int>, lo: int, n: int, id: int) returns (j: int)
    requires 0 <= lo && 0 <= n && lo + n <= buf.Length
    ensures j == FirstIndex(buf[lo..lo + n], id)
  {
    ghost var s := buf[lo..lo + n];
    j := 0;
    while j < n
      invariant 0 <= j <= n && id !in s[..j]
    {
      if buf[lo + j] == id {
        FirstIndexUnique(s, id, j);
        return;
      }
      assert s[..j + 1] == s[..j] + [s[j]];
      j := j + 1;
    }
    assert s[..n] == s;
    j := -1;
  }

  lemma FirstIndexUnique(s: seq<int>, x: int, j: int)
    requires 0 <= j < |s| && s[j] == x && x !in s[..j]
    ensures FirstIndex(s, x) == j
  {
    var i := FirstIndex(s, x);
    assert forall m :: 0 <= m < j ==> s[m] == s[..j][m];
    assert i >= 0;
    assert forall m :: 0 <= m < i ==> s[m] == s[..i][m];
  }

  lemma SegmentPlace(buf: seq<int>, counts: seq<int>, displs: seq<int>, segs: seq<seq<int>>, t: int)
    requires Packed(buf, counts, displs, segs) && 0 <= t < |segs|
    ensures |counts| == |displs| == |segs| && 0 <= displs[t] && 0 <= counts[t] && displs[t] + counts[t] <= |buf|
    ensures buf[displs[t]..displs[t] + counts[t]] == segs[t]
  {
  }

  /** Search the part of the buffer that holds segment t. */
  method FindIn(ids: array<int>, counts: array<int>, displs: array<int>, t: int, id: int, ghost segs: seq<seq<int>>)
    returns (j: int)
    requires Packed(ids[..], counts[..], displs[..], segs) && 0 <= t < |segs|
    ensures j == FirstIndex(segs[t], id)
  {
    hide Packed;
    SegmentPlace(ids[..], counts[..], displs[..], segs, t);
    assert ids[displs[t]..displs[t] + counts[t]] == ids[..][displs[t]..displs[t] + counts[t]];
    j := FindId(ids, displs[t], counts[t], id);
  }

  /** Take the id at position i of segment t. */
  method TakeAt(ids: array<int>, counts: array<int>, displs: array<int>, t: int, i: int, ghost segs: seq<seq<int>>)
    requires ids != counts && ids != displs && Packed(ids[..], counts[..], displs[..], segs)
    requires 0 <= t < |segs| && 0 <= i < |segs[t]|
    modifies ids
    ensures Packed(ids[..], counts[..], displs[..], segs[t := segs[t][i := TAKEN]])
  {
    hide Packed;
    SegmentPlace(ids[..], counts[..], displs[..], segs, t);
    ghost var b0 := ids[..];
    PackedUpdate(b0, counts[..], displs[..], segs, t, i, TAKEN);
    ids[displs[t] + i] := TAKEN;
    assert ids[..] == b0[displs[t] + i := TAKEN];
  }

  /** After the returned segments arrive: a mark, once set, stays. */
  ghost function MarkOne(nC: int, nR: int, ctr: seq<int>, rtc: seq<int>, x: Rec, back: seq<seq<int>>): Rec
    requires SegmentsFit(nC, nR, ctr, rtc, back) && (Reported(x) ==> 0 <= x.target < nC)
  {
    if !Reported(x) then x
    else x.(delcmp := x.delcmp || x.id !in back[x.target],
            delrep := x.delrep || ctr[x.target] == NONE || x.id !in back[nC + ctr[x.target]])
  }

  ghost predicate MarkedFrom(nC: int, nR: int, ctr: seq<int>, rtc: seq<int>, log: seq<Rec>, back: seq<seq<int>>,
                             log': seq<Rec>)
    requires SegmentsFit(nC, nR, ctr, rtc, back) && LogOk(nC, log)
  {
    |log'| == |log| && forall i :: 0 <= i < |log| ==> log'[i] == MarkOne(nC, nR, ctr, rtc, log[i], back)
  }

  predicate Deletable(x: Rec) { x.kind != Other && x.done && x.delcmp && x.delrep }

  ghost function Pruned(log: seq<Rec>): seq<Rec> {
    if log == [] then []
    else Pruned(log[..|log| - 1]) + if Deletable(log[|log| - 1]) then [] else [log[|log| - 1]]
  }

  lemma {:induction false} PrunedHolds(log: seq<Rec>, x: Rec)
    ensures x in Pruned(log) <==> x in log && !Deletable(x)
  {
    if log != [] {
      PrunedHolds(log[..|log| - 1], x);
      assert log == log[..|log| - 1] + [log[|log| - 1]];
    }
  }

  // ---- The bytes stored with the sends ----

  /** The bytes of all stored copies. */
  ghost function Bytes(log: seq<Rec>): int {
    if log == [] then 0
    else Bytes(log[..|log| - 1]) + BytesOf(log[|log| - 1])
  }

  function BytesOf(x: Rec): int {
    if x.kind == Send then x.bytes else 0
  }

  /** Marks do not count. */
  lemma {:induction false} BytesSame(a: seq<Rec>, b: seq<Rec>)
    requires |a| == |b| && forall i :: 0 <= i < |a| ==> BytesOf(a[i]) == BytesOf(b[i])
    ensures Bytes(a) == Bytes(b)
  {
    if a != [] { BytesSame(a[..|a| - 1], b[..|b| - 1]); }
  }

  class Process {
    var log: seq<Rec>
    var stored: int

    /** A send keeps a copy of the message, with its id behind the data, until the log drops it. */
    method LogSend(dest: int, id: int, count: int, size: int)
      requires 0 <= count && 1 <= size
      modifies this
      ensures log == old(log) + [Rec(Send, dest, id, false, false, false, Framing.Length(count, size))]
      ensures stored - Bytes(log) == old(stored) - Bytes(old(log))
    {
      var x := Rec(Send, dest, id, false, false, false, Framing.Length(count, size));
      stored := stored + x.bytes;
      log := log + [x];
      assert log[..|log| - 1] == old(log);
    }

    /** Match completed sends, in log order, against the ids the destinations reported. */
    method MatchSends(nC: int, nR: int, ctr: seq<int>, ghost rtc: seq<int>, ids: array<int>, counts: array<int>,
                      displs: array<int>, ghost segs: seq<seq<int>>)
      requires SegmentsFit(nC, nR, ctr, rtc, segs) && LogOk(nC, log)
      requires ids != counts && ids != displs && Packed(ids[..], counts[..], displs[..], segs)
      modifies this`log, ids
      ensures log == Matched(nC, nR, ctr, rtc, old(log), segs, |old(log)|).0
      ensures Packed(ids[..], counts[..], displs[..], Matched(nC, nR, ctr, rtc, old(log), segs, |old(log)|).1)
    {
      ghost var log0 := log;
      ghost var cs, ds := counts[..], displs[..];
      var k := 0;
      while k < |log|
        invariant 0 <= k <= |log| == |log0| && counts[..] == cs && displs[..] == ds
        invariant log == Matched(nC, nR, ctr, rtc, log0, segs, k).0
        invariant Packed(ids[..], cs, ds, Matched(nC, nR, ctr, rtc, log0, segs, k).1)
      {
        assert log[k] == log0[k];
        var taken := TakeIds(nC, nR, ctr, rtc, log[k], ids, counts, displs, Matched(nC, nR, ctr, rtc, log0, segs, k).1);
        if taken {
          log := log[k := log[k].(delcmp := true, delrep := true)];
        } else {
          assert log[k := log[k]] == log;
        }
        k := k + 1;
      }
    }

    /** Mark completed receives whose id did not come back. */
    method MarkReceives(nC: int, nR: int, ctr: seq<int>, ghost rtc: seq<int>, ids: array<int>, counts: array<int>,
                        displs: array<int>, ghost back: seq<seq<int>>)
      requires SegmentsFit(nC, nR, ctr, rtc, back) && LogOk(nC, log)
      requires Packed(ids[..], counts[..], displs[..], back)
      modifies this`log
      ensures MarkedFrom(nC, nR, ctr, rtc, old(log), back, log)
    {
      hide Packed, FirstIndex;
      ghost var log0 := log;
      var k := 0;
      while k < |log|
        invariant 0 <= k <= |log| == |log0|
        invariant forall i :: 0 <= i < k ==> log[i] == MarkOne(nC, nR, ctr, rtc, log0[i], back)
        invariant forall i :: k <= i < |log| ==> log[i] == log0[i]
      {
        var x := log[k];
        if x.kind == Recv && x.done {
          var j := FindIn(ids, counts, displs, x.target, x.id, back);
          var nodelcmp, nodelrep := j >= 0, false;
          if ctr[x.target] != NONE {
            j := FindIn(ids, counts, displs, ctr[x.target] + nC, x.id, back);
            nodelrep := j >= 0;
          }
          log := log[k := x.(delcmp := x.delcmp || !nodelcmp, delrep := x.delrep || !nodelrep)];
        }
        k := k + 1;
      }
    }

    /** The prune pass. */
    method Prune()
      modifies this
      ensures log == Pruned(old(log))
      ensures stored - Bytes(log) == old(stored) - Bytes(old(log))
    {
      ghost var log0 := log;
      ghost var seen := 0;
      var k := 0;
      while k < |log|
        invariant 0 <= k <= |log| && 0 <= seen <= |log0| && |log| - k == |log0| - seen
        invariant log[..k] == Pruned(log0[..seen]) && log[k..] == log0[seen..]
        invariant stored - Bytes(log[..k]) == old(stored) - Bytes(log0[..seen])
        decreases |log| - k
      {
        assert log[k] == log[k..][0] == log0[seen..][0] == log0[seen];
        assert log0[..seen + 1][..seen] == log0[..seen];
        ghost var rest := log[k..][1..];
        assert rest == log0[seen + 1..];
        if Deletable(log[k]) {
          stored := stored - BytesOf(log[k]);
          log := log[..k] + log[k + 1..];
        } else {
          assert log[..k + 1] == log[..k] + [log[k]] && log[..k + 1][..k] == log[..k];
          k := k + 1;
        }
        seen := seen + 1;
      }
      assert log0[..seen] == log0 && log[..k] == log;
    }
  }

  /** Look the send up in the segments of both copies of its destination and take the ids. */
  method TakeIds(nC: int, nR: int, ctr: seq<int>, ghost rtc: seq<int>, x: Rec, ids: array<int>, counts: array<int>,
                 displs: array<int>, ghost segs: seq<seq<int>>) returns (taken: bool)
    requires SegmentsFit(nC, nR, ctr, rtc, segs) && (x.kind == Send && x.done ==> 0 <= x.target < nC)
    requires ids != counts && ids != displs && Packed(ids[..], counts[..], displs[..], segs)
    modifies ids
    ensures var o := MatchOne(nC, nR, ctr, rtc, x, segs);
      && Packed(ids[..], counts[..], displs[..], o.1)
      && o.0 == if taken then x.(delcmp := true, delrep := true) else x
  {
    hide Packed, FirstIndex;
    taken := false;
    if x.kind == Send && x.done {
      var c := x.target;
      var i := FindIn(ids, counts, displs, c, x.id, segs);
      if ctr[c] == NONE {
        if i >= 0 {
          TakeAt(ids, counts, displs, c, i, segs);
          taken := true;
        }
      } else {
        var r := ctr[c] + nC;
        var j := FindIn(ids, counts, displs, r, x.id, segs);
        if i >= 0 && j >= 0 {
          TakeAt(ids, counts, displs, c, i, segs);
          TakeAt(ids, counts, displs, r, j, segs[c := segs[c][i := TAKEN]]);
          taken := true;
        }
      }
    }
  }
}
