/** What the survivors do when processes fail: promote the replica of every failed compute rank,
    drop the replicas that failed or were promoted, and close the gaps in place. */
module FailureRemap {

  const NONE: int := -1

  /** cmpToRep and repToCmp are mutually inverse: every replica stands for one compute rank, and a
      compute rank has at most one replica. */
  ghost predicate Paired(nC: int, nR: int, ctr: seq<int>, rtc: seq<int>) {
    && 0 <= nC == |ctr| && 0 <= nR == |rtc|
    && (forall c :: 0 <= c < nC ==> ctr[c] == NONE || (0 <= ctr[c] < nR && rtc[ctr[c]] == c))
    && (forall r :: 0 <= r < nR ==> 0 <= rtc[r] < nC && ctr[rtc[r]] == r)
  }

  ghost predicate RanksOf(n: int, failed: seq<int>) {
    && (forall j :: 0 <= j < |failed| ==> 0 <= failed[j] < n)
    && (forall i, j :: 0 <= i < j < |failed| ==> failed[i] != failed[j])
  }

  /** Replica slot r goes: its process failed, or it takes over for its failed compute rank. */
  ghost predicate Dropped(nC: int, rtc: seq<int>, failed: seq<int>, r: int)
    requires 0 <= r < |rtc|
  {
    nC + r in failed || rtc[r] in failed
  }

  /** No failed compute rank is without a replica and no pair failed together. */
  ghost predicate Survivable(nC: int, ctr: seq<int>, rtc: seq<int>, failed: seq<int>)
    requires |ctr| == nC
  {
    && (forall c :: 0 <= c < nC && c in failed ==> ctr[c] != NONE)
    && (forall r :: 0 <= r < |rtc| ==> !(nC + r in failed && rtc[r] in failed))
  }

  /** How many of the first k replica slots go. */
  ghost function Gone(nC: int, rtc: seq<int>, failed: seq<int>, k: int): (n: int)
    requires 0 <= k <= |rtc|
    ensures 0 <= n <= k
  {
    if k == 0 then 0
    else Gone(nC, rtc, failed, k - 1) + if Dropped(nC, rtc, failed, k - 1) then 1 else 0
  }

  /** The slots among the first k that stay, in order. */
  ghost function Stay(nC: int, rtc: seq<int>, failed: seq<int>, k: int): (s: seq<int>)
    requires 0 <= k <= |rtc|
    ensures |s| == k - Gone(nC, rtc, failed, k)
    ensures forall i :: 0 <= i < |s| ==> 0 <= s[i] < k
  {
    if k == 0 then []
    else Stay(nC, rtc, failed, k - 1) + if Dropped(nC, rtc, failed, k - 1) then [] else [k - 1]
  }

  // ---- The tables after the update, as functions of the tables before ----

  ghost function Promoted(nC: int, ctr: seq<int>, failed: seq<int>, c: int): int
    requires 0 <= c < |ctr|
  {
    if c in failed then nC + ctr[c] else c
  }

  ghost function NewRanks(nC: int, ctr: seq<int>, rtc: seq<int>, failed: seq<int>): seq<int>
    requires |ctr| == nC
  {
    var stay := Stay(nC, rtc, failed, |rtc|);
    seq(nC, c requires 0 <= c < nC => Promoted(nC, ctr, failed, c))
    + seq(|stay|, s requires 0 <= s < |stay| => nC + stay[s])
  }

  ghost function NewRepToCmp(nC: int, rtc: seq<int>, failed: seq<int>): seq<int> {
    var stay := Stay(nC, rtc, failed, |rtc|);
    seq(|stay|, s requires 0 <= s < |stay| => rtc[stay[s]])
  }

  ghost function NewReplica(nC: int, rtc: seq<int>, failed: seq<int>, r: int): int
    requires r == NONE || 0 <= r < |rtc|
  {
    if r == NONE || Dropped(nC, rtc, failed, r) then NONE else r - Gone(nC, rtc, failed, r)
  }

  ghost function NewCmpToRep(nC: int, ctr: seq<int>, rtc: seq<int>, failed: seq<int>): seq<int>
    requires Paired(nC, |rtc|, ctr, rtc)
  {
    seq(nC, c requires 0 <= c < nC => NewReplica(nC, rtc, failed, ctr[c]))
  }

  // ---- Counting lemmas ----

  lemma {:induction false} GoneMonotone(nC: int, rtc: seq<int>, failed: seq<int>, j: int, k: int)
    requires 0 <= j <= k <= |rtc|
    ensures Gone(nC, rtc, failed, j) <= Gone(nC, rtc, failed, k) <= Gone(nC, rtc, failed, j) + (k - j)
  {
    if j < k { GoneMonotone(nC, rtc, failed, j, k - 1); }
  }

  /** Slot r, if it stays, ends up at position r less the slots gone below it. */
  lemma {:induction false} StayAt(nC: int, rtc: seq<int>, failed: seq<int>, k: int, r: int)
    requires 0 <= r < k <= |rtc| && !Dropped(nC, rtc, failed, r)
    ensures 0 <= r - Gone(nC, rtc, failed, r) < |Stay(nC, rtc, failed, k)|
    ensures Stay(nC, rtc, failed, k)[r - Gone(nC, rtc, failed, r)] == r
  {
    if r < k - 1 { StayAt(nC, rtc, failed, k - 1, r); }
  }

  /** Conversely, position s holds a slot that stays and has exactly s staying slots below it. */
  lemma {:induction false} StayIs(nC: int, rtc: seq<int>, failed: seq<int>, k: int, s: int)
    requires 0 <= k <= |rtc| && 0 <= s < |Stay(nC, rtc, failed, k)|
    ensures var r := Stay(nC, rtc, failed, k)[s];
      !Dropped(nC, rtc, failed, r) && s == r - Gone(nC, rtc, failed, r)
  {
    if s < |Stay(nC, rtc, failed, k - 1)| { StayIs(nC, rtc, failed, k - 1, s); }
  }

  /** One more failure that drops slot d, and only d, shifts the counts above d by one. */
  lemma {:induction false} GoneStep(nC: int, rtc: seq<int>, failed: seq<int>, failed': seq<int>, d: int, k: int)
    requires 0 <= k <= |rtc| && 0 <= d < |rtc| && !Dropped(nC, rtc, failed, d)
    requires forall r :: 0 <= r < |rtc| ==> (Dropped(nC, rtc, failed', r) <==> Dropped(nC, rtc, failed, r) || r == d)
    ensures Gone(nC, rtc, failed', k) == Gone(nC, rtc, failed, k) + if d < k then 1 else 0
  {
    if k > 0 { GoneStep(nC, rtc, failed, failed', d, k - 1); }
  }

  // ---- What the new tables are worth ----

  /** The new maps are mutually inverse on the compute ranks and the remaining replicas. */
  lemma RemapKeepsPairs(nC: int, nR: int, ctr: seq<int>, rtc: seq<int>, failed: seq<int>)
    requires Paired(nC, nR, ctr, rtc)
    ensures var rtc' := NewRepToCmp(nC, rtc, failed); Paired(nC, |rtc'|, NewCmpToRep(nC, ctr, rtc, failed), rtc')
  {
    var stay := Stay(nC, rtc, failed, nR);
    var rtc' := NewRepToCmp(nC, rtc, failed);
    var ctr' := NewCmpToRep(nC, ctr, rtc, failed);
    forall c | 0 <= c < nC && ctr'[c] != NONE
      ensures 0 <= ctr'[c] < |rtc'| && rtc'[ctr'[c]] == c
    {
      StayAt(nC, rtc, failed, nR, ctr[c]);
    }
    forall s | 0 <= s < |rtc'|
      ensures 0 <= rtc'[s] < nC && ctr'[rtc'[s]] == s
    {
      StayIs(nC, rtc, failed, nR, s);
    }
  }

  /** The number of replicas falls by one for every failure. */
  lemma {:induction false} OneSlotPerFailure(nC: int, nR: int, ctr: seq<int>, rtc: seq<int>, failed: seq<int>)
    requires Paired(nC, nR, ctr, rtc) && RanksOf(nC + nR, failed) && Survivable(nC, ctr, rtc, failed)
    ensures Gone(nC, rtc, failed, nR) == |failed|
  {
    if failed == [] {
      NothingGone(nC, rtc, nR);
    } else {
      var rest, x := failed[..|failed| - 1], failed[|failed| - 1];
      assert failed == rest + [x];
      OneSlotPerFailure(nC, nR, ctr, rtc, rest);
      DropsOneMore(nC, nR, ctr, rtc, rest, x);
      GoneStep(nC, rtc, rest, failed, SlotOf(nC, ctr, x), nR);
    }
  }

  lemma {:induction false} NothingGone(nC: int, rtc: seq<int>, k: int)
    requires 0 <= k <= |rtc|
    ensures Gone(nC, rtc, [], k) == 0
  {
    if k > 0 { NothingGone(nC, rtc, k - 1); }
  }

  /** The replica slot a failed rank costs. */
  ghost function SlotOf(nC: int, ctr: seq<int>, x: int): int
    requires 0 <= x && nC == |ctr|
  {
    if x < nC then ctr[x] else x - nC
  }

  lemma DropsOneMore(nC: int, nR: int, ctr: seq<int>, rtc: seq<int>, failed: seq<int>, x: int)
    requires Paired(nC, nR, ctr, rtc) && 0 <= x < nC + nR && x !in failed
    requires Survivable(nC, ctr, rtc, failed + [x])
    ensures var d := SlotOf(nC, ctr, x);
      && 0 <= d < nR && !Dropped(nC, rtc, failed, d)
      && forall r :: 0 <= r < nR ==> (Dropped(nC, rtc, failed + [x], r) <==> Dropped(nC, rtc, failed, r) || r == d)
  {
    var d := SlotOf(nC, ctr, x);
    assert x in failed + [x];
    forall y ensures y in failed + [x] <==> y in failed || y == x {}
  }

  lemma RanksDistinct(nC: int, nR: int, ctr: seq<int>, rtc: seq<int>, failed: seq<int>, i: int, j: int)
    requires Paired(nC, nR, ctr, rtc) && Survivable(nC, ctr, rtc, failed)
    requires 0 <= i < j < |NewRanks(nC, ctr, rtc, failed)|
    ensures NewRanks(nC, ctr, rtc, failed)[i] != NewRanks(nC, ctr, rtc, failed)[j]
  {
    if nC <= j {
      StayIs(nC, rtc, failed, nR, j - nC);
      if nC <= i { StayIs(nC, rtc, failed, nR, i - nC); }
    }
  }

  lemma RanksAlive(nC: int, nR: int, ctr: seq<int>, rtc: seq<int>, failed: seq<int>, i: int)
    requires Paired(nC, nR, ctr, rtc) && Survivable(nC, ctr, rtc, failed)
    requires 0 <= i < |NewRanks(nC, ctr, rtc, failed)|
    ensures var x := NewRanks(nC, ctr, rtc, failed)[i]; 0 <= x < nC + nR && x !in failed
  {
    if nC <= i { StayIs(nC, rtc, failed, nR, i - nC); }
  }

  lemma RanksComplete(nC: int, nR: int, ctr: seq<int>, rtc: seq<int>, failed: seq<int>, x: int)
    requires Paired(nC, nR, ctr, rtc) && 0 <= x < nC + nR && x !in failed
    ensures x in NewRanks(nC, ctr, rtc, failed)
  {
    var w := NewRanks(nC, ctr, rtc, failed);
    if x < nC {
      assert w[x] == x;
    } else if rtc[x - nC] in failed {
      assert w[rtc[x - nC]] == x;
    } else {
      StayAt(nC, rtc, failed, nR, x - nC);
      assert w[nC + (x - nC - Gone(nC, rtc, failed, x - nC))] == x;
    }
  }

  /** A table of ranks that lists every survivor exactly once and no failed rank. */
  ghost predicate ListsSurvivors(n: int, failed: seq<int>, w: seq<int>) {
    && (forall i :: 0 <= i < |w| ==> 0 <= w[i] < n && w[i] !in failed)
    && (forall i, j :: 0 <= i < j < |w| ==> w[i] != w[j])
    && (forall x :: 0 <= x < n && x !in failed ==> x in w)
  }

  lemma RanksAreSurvivors(nC: int, nR: int, ctr: seq<int>, rtc: seq<int>, failed: seq<int>)
    requires Paired(nC, nR, ctr, rtc) && Survivable(nC, ctr, rtc, failed)
    ensures ListsSurvivors(nC + nR, failed, NewRanks(nC, ctr, rtc, failed))
  {
    hide NewRanks, Survivable;
    var w := NewRanks(nC, ctr, rtc, failed);
    forall i | 0 <= i < |w|
      ensures 0 <= w[i] < nC + nR && w[i] !in failed
    {
      RanksAlive(nC, nR, ctr, rtc, failed, i);
    }
    forall i, j | 0 <= i < j < |w|
      ensures w[i] != w[j]
    {
      RanksDistinct(nC, nR, ctr, rtc, failed, i, j);
    }
    forall x | 0 <= x < nC + nR && x !in failed
      ensures x in w
    {
      RanksComplete(nC, nR, ctr, rtc, failed, x);
    }
  }

  /** Slot c holds the old c or its old replica, slot nC + s the old replica of the new repToCmp[s]. */
  lemma SlotsAreCopies(nC: int, nR: int, ctr: seq<int>, rtc: seq<int>, failed: seq<int>)
    requires Paired(nC, nR, ctr, rtc) && Survivable(nC, ctr, rtc, failed)
    ensures var w := NewRanks(nC, ctr, rtc, failed); var rtc' := NewRepToCmp(nC, rtc, failed);
      && |w| == nC + |rtc'|
      && (forall c :: 0 <= c < nC ==> w[c] == c || (ctr[c] != NONE && w[c] == nC + ctr[c]))
      && (forall i :: nC <= i < |w| ==> nC <= w[i] < nC + nR && rtc'[i - nC] == rtc[w[i] - nC])
  {
  }

  // ---- The first pass, one failed rank at a time ----

  datatype Outcome = Remapped | NoReplica | IndexFault

  ghost predicate Cleared(nC: int, ctr: seq<int>, rtc: seq<int>, failed: seq<int>, ctr1: seq<int>, rtc1: seq<int>) {
    && |ctr1| == |ctr| && |rtc1| == |rtc|
    && (forall c :: 0 <= c < |ctr| ==>
          ctr1[c] == if 0 <= ctr[c] < |rtc| && Dropped(nC, rtc, failed, ctr[c]) then NONE else ctr[c])
    && (forall r :: 0 <= r < |rtc| ==> rtc1[r] == if Dropped(nC, rtc, failed, r) then NONE else rtc[r])
  }

  ghost predicate Moved(nC: int, ctr: seq<int>, rtc: seq<int>, failed: seq<int>, w: seq<int>, adj: seq<int>) {
    && |ctr| == nC && |w| == |adj| == nC + |rtc|
    && (forall c :: 0 <= c < nC ==> w[c] == Promoted(nC, ctr, failed, c) && adj[c] == 0)
    && (forall r :: 0 <= r < |rtc| ==>
          && w[nC + r] == (if Dropped(nC, rtc, failed, r) then NONE else nC + r)
          && adj[nC + r] == Gone(nC, rtc, failed, r))
  }

  lemma StartOfPass(nC: int, nR: int, ctr: seq<int>, rtc: seq<int>, w: seq<int>, adj: seq<int>)
    requires Paired(nC, nR, ctr, rtc) && |w| == |adj| == nC + nR
    requires forall i :: 0 <= i < nC + nR ==> w[i] == i && adj[i] == 0
    ensures Cleared(nC, ctr, rtc, [], ctr, rtc) && Moved(nC, ctr, rtc, [], w, adj) && Survivable(nC, ctr, rtc, [])
  {
    forall r | 0 <= r < nR
      ensures Gone(nC, rtc, [], r) == 0
    {
      NothingGone(nC, rtc, r);
    }
  }

  /** The test on the partly cleared map says whether the next failure is survivable. */
  lemma TestIsRight(nC: int, nR: int, ctr: seq<int>, rtc: seq<int>, failed: seq<int>, x: int, ctr1: seq<int>,
                    rtc1: seq<int>)
    requires Paired(nC, nR, ctr, rtc) && Survivable(nC, ctr, rtc, failed) && Cleared(nC, ctr, rtc, failed, ctr1, rtc1)
    requires 0 <= x < nC + nR && x !in failed
    ensures x < nC ==> (ctr1[x] != NONE <==> Survivable(nC, ctr, rtc, failed + [x]))
    ensures nC <= x ==> (rtc1[x - nC] != NONE <==> Survivable(nC, ctr, rtc, failed + [x]))
  {
    var f' := failed + [x];
    assert x in f';
    forall y ensures y in f' <==> y in failed || y == x {}
    if x < nC && ctr[x] != NONE && nC + ctr[x] in failed {
      assert rtc[ctr[x]] == x;
    }
  }

  lemma ClearStep(nC: int, nR: int, ctr: seq<int>, rtc: seq<int>, failed: seq<int>, x: int, ctr1: seq<int>,
                  rtc1: seq<int>)
    requires Paired(nC, nR, ctr, rtc) && Cleared(nC, ctr, rtc, failed, ctr1, rtc1)
    requires 0 <= x < nC + nR && x !in failed && Survivable(nC, ctr, rtc, failed + [x])
    ensures var d := SlotOf(nC, ctr, x); 0 <= d < nR && 0 <= rtc[d] < nC
    ensures var d := SlotOf(nC, ctr, x);
      && rtc1[d] == rtc[d] && ctr1[rtc[d]] == d
      && Cleared(nC, ctr, rtc, failed + [x], ctr1[rtc[d] := NONE], rtc1[d := NONE])
  {
    DropsOneMore(nC, nR, ctr, rtc, failed, x);
  }

  lemma SlotKnown(nC: int, nR: int, ctr: seq<int>, rtc: seq<int>, failed: seq<int>, x: int, ctr1: seq<int>,
                  rtc1: seq<int>, w: seq<int>, adj: seq<int>)
    requires Paired(nC, nR, ctr, rtc) && Cleared(nC, ctr, rtc, failed, ctr1, rtc1)
    requires Moved(nC, ctr, rtc, failed, w, adj)
    requires 0 <= x < nC + nR && x !in failed && Survivable(nC, ctr, rtc, failed + [x])
    ensures |ctr1| == nC && |rtc1| == nR && |w| == nC + nR
    ensures var d := SlotOf(nC, ctr, x);
      && 0 <= d < nR && 0 <= rtc[d] < nC && rtc1[d] == rtc[d]
      && (x < nC ==> ctr1[x] == d && rtc[d] == x)
      && Cleared(nC, ctr, rtc, failed + [x], ctr1[rtc[d] := NONE], rtc1[d := NONE])
  {
    ClearStep(nC, nR, ctr, rtc, failed, x, ctr1, rtc1);
    assert x in failed + [x];
  }

  ghost predicate BumpedAbove(adj: seq<int>, adj': seq<int>, from: int) {
    && |adj'| == |adj|
    && forall i :: 0 <= i < |adj| ==> adj'[i] == if from <= i then adj[i] + 1 else adj[i]
  }

  lemma MoveStep(nC: int, nR: int, ctr: seq<int>, rtc: seq<int>, failed: seq<int>, x: int,
                 w: seq<int>, adj: seq<int>, w': seq<int>, adj': seq<int>)
    requires Paired(nC, nR, ctr, rtc) && Moved(nC, ctr, rtc, failed, w, adj)
    requires 0 <= x < nC + nR && x !in failed && Survivable(nC, ctr, rtc, failed + [x])
    requires var d := SlotOf(nC, ctr, x); 0 <= d < nR && BumpedAbove(adj, adj', nC + d + 1)
    requires var d := SlotOf(nC, ctr, x);
      w' == if x < nC then w[x := w[nC + d]][nC + d := NONE] else w[x := NONE]
    ensures Moved(nC, ctr, rtc, failed + [x], w', adj')
  {
    hide Paired, Survivable, Gone, Dropped;
    var d := SlotOf(nC, ctr, x);
    var f' := failed + [x];
    PairedAt(nC, nR, ctr, rtc, x);
    DropsOneMore(nC, nR, ctr, rtc, failed, x);
    forall y ensures y in f' <==> y in failed || y == x {}
    forall c | 0 <= c < nC
      ensures w'[c] == Promoted(nC, ctr, f', c) && adj'[c] == 0
    {
      MovedAt(nC, ctr, rtc, failed, w, adj, c, d);
    }
    forall r | 0 <= r < nR
      ensures w'[nC + r] == (if Dropped(nC, rtc, f', r) then NONE else nC + r) && adj'[nC + r] == Gone(nC, rtc, f', r)
    {
      MovedAt(nC, ctr, rtc, failed, w, adj, 0, r);
      GoneStep(nC, rtc, failed, f', d, r);
    }
  }

  lemma MovedAt(nC: int, ctr: seq<int>, rtc: seq<int>, failed: seq<int>, w: seq<int>, adj: seq<int>, c: int, r: int)
    requires Moved(nC, ctr, rtc, failed, w, adj) && 0 <= r < |rtc|
    ensures |ctr| == nC && |w| == |adj| == nC + |rtc|
    ensures 0 <= c < nC ==> w[c] == Promoted(nC, ctr, failed, c) && adj[c] == 0
    ensures 0 <= nC ==>
      w[nC + r] == (if Dropped(nC, rtc, failed, r) then NONE else nC + r) && adj[nC + r] == Gone(nC, rtc, failed, r)
  {
    hide Gone, Dropped, Promoted;
  }

  lemma MovedSizes(nC: int, ctr: seq<int>, rtc: seq<int>, failed: seq<int>, w: seq<int>, adj: seq<int>)
    requires Moved(nC, ctr, rtc, failed, w, adj)
    ensures |ctr| == nC && |w| == |adj| == nC + |rtc|
  {
    hide Gone, Dropped, Promoted;
  }

  // ---- The second pass closes the gaps ----

  lemma BelowIsEarlier(nC: int, rtc: seq<int>, failed: seq<int>, q: int, r: int)
    requires 0 <= q < r < |rtc| && !Dropped(nC, rtc, failed, q)
    ensures q - Gone(nC, rtc, failed, q) < r - Gone(nC, rtc, failed, r) <= r
  {
    assert Gone(nC, rtc, failed, q + 1) == Gone(nC, rtc, failed, q);
    GoneMonotone(nC, rtc, failed, q + 1, r);
  }

  /** Slots below k that stay have been copied down, slots from k on are untouched. */
  ghost predicate Closed(nC: int, rtc: seq<int>, failed: seq<int>, a0: seq<int>, a: seq<int>, k: int)
    requires |a| == |a0| == |rtc|
  {
    && (forall r :: 0 <= r < k && r < |rtc| && !Dropped(nC, rtc, failed, r) ==>
          0 <= r - Gone(nC, rtc, failed, r) && a[r - Gone(nC, rtc, failed, r)] == a0[r])
    && (forall r :: 0 <= k <= r < |rtc| ==> a[r] == a0[r])
  }

  lemma CloseStep(nC: int, rtc: seq<int>, failed: seq<int>, a0: seq<int>, a: seq<int>, k: int)
    requires |a| == |a0| == |rtc| && 0 <= k < |rtc| && Closed(nC, rtc, failed, a0, a, k)
    ensures a[k] == a0[k] && (Dropped(nC, rtc, failed, k) ==> Closed(nC, rtc, failed, a0, a, k + 1))
    ensures var t := k - Gone(nC, rtc, failed, k);
      0 <= t <= k && (!Dropped(nC, rtc, failed, k) ==> Closed(nC, rtc, failed, a0, a[t := a[k]], k + 1))
  {
    hide Dropped, Gone;
    forall q | 0 <= q < k && !Dropped(nC, rtc, failed, q)
      ensures q - Gone(nC, rtc, failed, q) < k - Gone(nC, rtc, failed, k)
    {
      BelowIsEarlier(nC, rtc, failed, q, k);
    }
  }

  /** Once closed, the first entries are those of the staying slots in order. */
  lemma ClosedIsStay(nC: int, rtc: seq<int>, failed: seq<int>, a0: seq<int>, a: seq<int>)
    requires |a| == |a0| == |rtc| && Closed(nC, rtc, failed, a0, a, |rtc|)
    ensures var stay := Stay(nC, rtc, failed, |rtc|);
      |stay| <= |a| && forall s :: 0 <= s < |stay| ==> a[s] == a0[stay[s]]
  {
    var stay := Stay(nC, rtc, failed, |rtc|);
    forall s | 0 <= s < |stay|
      ensures a[s] == a0[stay[s]]
    {
      StayIs(nC, rtc, failed, |rtc|, s);
    }
  }

  /** The rank table with its compute part in place and its replica part closed up to rank i. */
  ghost predicate RanksClosed(nC: int, rtc: seq<int>, failed: seq<int>, w0: seq<int>, w: seq<int>, i: int) {
    && 0 <= nC && |w| == |w0| == nC + |rtc|
    && w[..nC] == w0[..nC] && Closed(nC, rtc, failed, w0[nC..], w[nC..], if i < nC then 0 else i - nC)
  }

  lemma SizesOf(nC: int, ctr: seq<int>, rtc: seq<int>)
    requires Paired(nC, |rtc|, ctr, rtc)
    ensures |ctr| == nC && 0 <= nC && forall r :: 0 <= r < |rtc| ==> 0 <= rtc[r] < nC
  {
  }

  lemma RankStep(nC: int, ctr: seq<int>, rtc: seq<int>, failed: seq<int>, w0: seq<int>, adj: seq<int>, w: seq<int>,
                 i: int)
    requires Paired(nC, |rtc|, ctr, rtc) && Moved(nC, ctr, rtc, failed, w0, adj)
    requires RanksClosed(nC, rtc, failed, w0, w, i) && 0 <= i < nC + |rtc|
    ensures |adj| == nC + |rtc| && 0 <= i - adj[i] <= i
    ensures RanksClosed(nC, rtc, failed, w0, if w[i] == NONE then w else w[i - adj[i] := w[i]], i + 1)
  {
    hide Closed, Dropped, Gone, Paired;
    SizesOf(nC, ctr, rtc);
    if i >= nC { CloseStep(nC, rtc, failed, w0[nC..], w[nC..], i - nC); }
    var w' := if w[i] == NONE then w else w[i - adj[i] := w[i]];
    if i >= nC {
      var k := i - nC;
      assert w[i] == w0[nC..][k] && adj[nC + k] == Gone(nC, rtc, failed, k);
      if w[i] != NONE { assert w'[nC..] == w[nC..][k - Gone(nC, rtc, failed, k) := w[nC..][k]]; }
    } else {
      assert w' == w;
    }
  }

  ghost predicate CmpClosed(nC: int, ctr: seq<int>, rtc: seq<int>, failed: seq<int>, c0: seq<int>, c: seq<int>, i: int)
    requires Paired(nC, |rtc|, ctr, rtc)
  {
    && |c| == |c0| == nC
    && (forall k :: 0 <= k < nC ==> c[k] == if k < i then NewReplica(nC, rtc, failed, ctr[k]) else c0[k])
  }

  lemma CmpStep(nC: int, ctr: seq<int>, rtc: seq<int>, failed: seq<int>, c0: seq<int>, r0: seq<int>, w0: seq<int>,
                adj: seq<int>, c: seq<int>, i: int)
    requires Paired(nC, |rtc|, ctr, rtc) && Cleared(nC, ctr, rtc, failed, c0, r0)
    requires Moved(nC, ctr, rtc, failed, w0, adj)
    requires CmpClosed(nC, ctr, rtc, failed, c0, c, i) && 0 <= i
    ensures i >= nC ==> CmpClosed(nC, ctr, rtc, failed, c0, c, i + 1)
    ensures i < nC && c[i] == NONE ==> CmpClosed(nC, ctr, rtc, failed, c0, c, i + 1)
    ensures i < nC && c[i] != NONE ==>
      0 <= c[i] < |rtc| && CmpClosed(nC, ctr, rtc, failed, c0, c[i := c[i] - adj[c[i] + nC]], i + 1)
  {
    hide Paired, Cleared, Moved, Dropped, Gone, NewReplica;
    assert |c| == nC;
    if i < nC {
      ReplicaAt(nC, ctr, rtc, failed, c0, r0, w0, adj, i);
      var c' := if c[i] == NONE then c else c[i := c[i] - adj[c[i] + nC]];
      assert forall k :: 0 <= k < nC && k != i ==> c'[k] == c[k];
    }
  }

  lemma PairedAt(nC: int, nR: int, ctr: seq<int>, rtc: seq<int>, c: int)
    requires Paired(nC, nR, ctr, rtc)
    ensures 0 <= nC == |ctr| && 0 <= nR == |rtc| && (0 <= c < nC ==> ctr[c] == NONE || 0 <= ctr[c] < nR)
  {
  }

  lemma ClearedAt(nC: int, ctr: seq<int>, rtc: seq<int>, failed: seq<int>, c0: seq<int>, r0: seq<int>, c: int)
    requires Cleared(nC, ctr, rtc, failed, c0, r0) && 0 <= c < |ctr|
    ensures |c0| == |ctr| && c0[c] == if 0 <= ctr[c] < |rtc| && Dropped(nC, rtc, failed, ctr[c]) then NONE else ctr[c]
  {
    hide Dropped;
  }

  /** What the first pass left for rank i, and what the second pass makes of it. */
  lemma ReplicaAt(nC: int, ctr: seq<int>, rtc: seq<int>, failed: seq<int>, c0: seq<int>, r0: seq<int>, w0: seq<int>,
                  adj: seq<int>, i: int)
    requires Paired(nC, |rtc|, ctr, rtc) && Cleared(nC, ctr, rtc, failed, c0, r0)
    requires Moved(nC, ctr, rtc, failed, w0, adj) && 0 <= i < nC
    ensures |ctr| == |c0| == nC && |adj| == nC + |rtc| && (ctr[i] == NONE || 0 <= ctr[i] < |rtc|)
    ensures c0[i] == NONE ==> NewReplica(nC, rtc, failed, ctr[i]) == NONE
    ensures c0[i] != NONE ==> 0 <= c0[i] < |rtc| && NewReplica(nC, rtc, failed, ctr[i]) == c0[i] - adj[c0[i] + nC]
  {
    hide Paired, Moved, Cleared, Gone, Dropped;
    PairedAt(nC, |rtc|, ctr, rtc, i);
    ClearedAt(nC, ctr, rtc, failed, c0, r0, i);
    if ctr[i] != NONE { MovedAt(nC, ctr, rtc, failed, w0, adj, i, ctr[i]); }
    MovedSizes(nC, ctr, rtc, failed, w0, adj);
  }

  ghost predicate RepClosed(nC: int, rtc: seq<int>, failed: seq<int>, r0: seq<int>, r: seq<int>, i: int) {
    && |r| == |r0| == |rtc|
    && Closed(nC, rtc, failed, r0, r, if i < |rtc| then i else |rtc|)
  }

  lemma RepStep(nC: int, ctr: seq<int>, rtc: seq<int>, failed: seq<int>, c0: seq<int>, r0: seq<int>, w0: seq<int>,
                adj: seq<int>, r: seq<int>, i: int)
    requires Paired(nC, |rtc|, ctr, rtc) && Cleared(nC, ctr, rtc, failed, c0, r0)
    requires Moved(nC, ctr, rtc, failed, w0, adj)
    requires RepClosed(nC, rtc, failed, r0, r, i) && 0 <= i
    ensures i >= |rtc| ==> RepClosed(nC, rtc, failed, r0, r, i + 1)
    ensures i < |rtc| && r[i] == NONE ==> RepClosed(nC, rtc, failed, r0, r, i + 1)
    ensures i < |rtc| && r[i] != NONE ==>
              && 0 <= r[i] < nC && 0 <= i - adj[i + nC] <= i
              && RepClosed(nC, rtc, failed, r0, r[i - adj[i + nC] := r[i]], i + 1)
  {
    hide Closed, Dropped, Gone, Paired;
    SizesOf(nC, ctr, rtc);
    if i < |rtc| {
      CloseStep(nC, rtc, failed, r0, r, i);
    }
  }

  lemma NothingClosed(nC: int, ctr: seq<int>, rtc: seq<int>, failed: seq<int>, c0: seq<int>, r0: seq<int>, w0: seq<int>,
                      adj: seq<int>)
    requires Paired(nC, |rtc|, ctr, rtc) && Cleared(nC, ctr, rtc, failed, c0, r0)
    requires Moved(nC, ctr, rtc, failed, w0, adj)
    ensures RanksClosed(nC, rtc, failed, w0, w0, 0) && CmpClosed(nC, ctr, rtc, failed, c0, c0, 0)
    ensures RepClosed(nC, rtc, failed, r0, r0, 0)
  {
  }

  lemma ClosedTables(nC: int, ctr: seq<int>, rtc: seq<int>, failed: seq<int>, c0: seq<int>, r0: seq<int>, w0: seq<int>,
                     adj: seq<int>, c: seq<int>, r: seq<int>, w: seq<int>)
    requires Paired(nC, |rtc|, ctr, rtc) && Cleared(nC, ctr, rtc, failed, c0, r0)
    requires Moved(nC, ctr, rtc, failed, w0, adj)
    requires RanksClosed(nC, rtc, failed, w0, w, nC + |rtc|) && CmpClosed(nC, ctr, rtc, failed, c0, c, nC + |rtc|)
    requires RepClosed(nC, rtc, failed, r0, r, nC + |rtc|)
    ensures c == NewCmpToRep(nC, ctr, rtc, failed)
    ensures NewRepToCmp(nC, rtc, failed) <= r && NewRanks(nC, ctr, rtc, failed) <= w
  {
    hide Closed, Dropped, Gone, NewRepToCmp, NewRanks, Cleared, Moved, RanksClosed, RepClosed;
    RanksDone(nC, ctr, rtc, failed, w0, adj, w);
    RepDone(nC, ctr, rtc, failed, c0, r0, r);
  }

  lemma RanksDone(nC: int, ctr: seq<int>, rtc: seq<int>, failed: seq<int>, w0: seq<int>, adj: seq<int>, w: seq<int>)
    requires Paired(nC, |rtc|, ctr, rtc) && Moved(nC, ctr, rtc, failed, w0, adj)
    requires RanksClosed(nC, rtc, failed, w0, w, nC + |rtc|)
    ensures NewRanks(nC, ctr, rtc, failed) <= w
  {
    hide Closed, Dropped, Gone, Stay;
    ClosedIsStay(nC, rtc, failed, w0[nC..], w[nC..]);
    var stay := Stay(nC, rtc, failed, |rtc|);
    var v := NewRanks(nC, ctr, rtc, failed);
    forall k | 0 <= k < |v|
      ensures v[k] == w[k]
    {
      if k < nC {
        assert w[..nC][k] == w0[..nC][k];
      } else {
        var s := k - nC;
        StayIs(nC, rtc, failed, |rtc|, s);
        assert w[nC..][s] == w0[nC..][stay[s]] && w0[nC + stay[s]] == nC + stay[s];
      }
    }
  }

  lemma RepDone(nC: int, ctr: seq<int>, rtc: seq<int>, failed: seq<int>, c0: seq<int>, r0: seq<int>, r: seq<int>)
    requires Cleared(nC, ctr, rtc, failed, c0, r0) && RepClosed(nC, rtc, failed, r0, r, nC + |rtc|) && 0 <= nC
    ensures NewRepToCmp(nC, rtc, failed) <= r
  {
    hide Closed, Dropped, Gone, Stay;
    ClosedIsStay(nC, rtc, failed, r0, r);
    var stay := Stay(nC, rtc, failed, |rtc|);
    forall s | 0 <= s < |stay|
      ensures r[s] == rtc[stay[s]]
    {
      StayIs(nC, rtc, failed, |rtc|, s);
    }
  }

  /** One assignment to an array, and what it does to its first n entries. */
  method Put(a: array<int>, i: int, v: int, ghost n: int)
    requires 0 <= i < n <= a.Length
    modifies a
    ensures a[..] == old(a[..])[i := v] && a[..n] == old(a[..n])[i := v]
  {
    a[i] := v;
  }

  class Topology {
    var nC: int
    var nR: int
    var cmpToRep: array<int>
    var repToCmp: array<int>

    ghost predicate Shaped()
      reads this
    {
      cmpToRep != repToCmp && 0 <= nC == cmpToRep.Length && 0 <= nR <= repToCmp.Length
    }

    ghost predicate Valid()
      reads this, cmpToRep, repToCmp
    {
      Shaped() && Paired(nC, nR, cmpToRep[..], repToCmp[..nR])
    }

    /** Promote and drop, in the order the failures are listed.  The pass stops at the first failed
        compute rank with no replica left, and would index repToCmp with -1 at a failed replica
        whose compute rank failed before it. */
    method DropFailed(failed: seq<int>, world: array<int>, rankadjrep: array<int>)
      returns (outcome: Outcome, nRdiff: int, ghost at: int)
      requires Valid() && RanksOf(nC + nR, failed)
      requires world.Length == rankadjrep.Length == nC + nR
      requires world != rankadjrep && {world, rankadjrep} !! {cmpToRep, repToCmp}
      requires forall i :: 0 <= i < nC + nR ==> world[i] == i && rankadjrep[i] == 0
      modifies cmpToRep, repToCmp, world, rankadjrep
      ensures repToCmp[nR..] == old(repToCmp[nR..])
      ensures outcome.Remapped? <==> Survivable(nC, old(cmpToRep[..]), old(repToCmp[..nR]), failed)
      ensures outcome.Remapped? ==>
                && nRdiff == |failed|
                && Cleared(nC, old(cmpToRep[..]), old(repToCmp[..nR]), failed, cmpToRep[..], repToCmp[..nR])
                && Moved(nC, old(cmpToRep[..]), old(repToCmp[..nR]), failed, world[..], rankadjrep[..])
      ensures !outcome.Remapped? ==>
                && 0 <= at < |failed|
                && Survivable(nC, old(cmpToRep[..]), old(repToCmp[..nR]), failed[..at])
                && !Survivable(nC, old(cmpToRep[..]), old(repToCmp[..nR]), failed[..at + 1])
                && (outcome.NoReplica? <==> failed[at] < nC)
    {
      hide Cleared, Moved, Survivable, Dropped;
      ghost var ctr, rtc := cmpToRep[..], repToCmp[..nR];
      nRdiff := 0;
      StartOfPass(nC, nR, ctr, rtc, world[..], rankadjrep[..]);
      assert failed[..0] == [];
      var j := 0;
      while j < |failed|
        invariant 0 <= j <= |failed| && nRdiff == j
        invariant repToCmp[nR..] == old(repToCmp[nR..])
        invariant Survivable(nC, ctr, rtc, failed[..j])
        invariant Cleared(nC, ctr, rtc, failed[..j], cmpToRep[..], repToCmp[..nR])
        invariant Moved(nC, ctr, rtc, failed[..j], world[..], rankadjrep[..])
      {
        var x := failed[j];
        assert failed[..j + 1] == failed[..j] + [x];
        assert x !in failed[..j];
        TestIsRight(nC, nR, ctr, rtc, failed[..j], x, cmpToRep[..], repToCmp[..nR]);
        if x < nC {
          if cmpToRep[x] == NONE {
            PrefixDecides(nC, ctr, rtc, failed, j + 1);
            return NoReplica, nRdiff, j;
          }
          DropOne(x, cmpToRep[x], true, world, rankadjrep, failed[..j], ctr, rtc);
        } else {
          if repToCmp[x - nC] == NONE {
            PrefixDecides(nC, ctr, rtc, failed, j + 1);
            return IndexFault, nRdiff, j;
          }
          DropOne(x, x - nC, false, world, rankadjrep, failed[..j], ctr, rtc);
        }
        nRdiff := nRdiff + 1;
        j := j + 1;
      }
      assert failed[..j] == failed;
      return Remapped, nRdiff, 0;
    }

    method DropOne(x: int, d: int, promote: bool, world: array<int>, rankadjrep: array<int>,
                   ghost done: seq<int>, ghost ctr: seq<int>, ghost rtc: seq<int>)
      requires Shaped() && world.Length == rankadjrep.Length == nC + nR
      requires world != rankadjrep && {world, rankadjrep} !! {cmpToRep, repToCmp}
      requires Paired(nC, nR, ctr, rtc) && 0 <= x < nC + nR && x !in done && Survivable(nC, ctr, rtc, done + [x])
      requires Cleared(nC, ctr, rtc, done, cmpToRep[..], repToCmp[..nR])
      requires Moved(nC, ctr, rtc, done, world[..], rankadjrep[..])
      requires promote == (x < nC) && d == if promote then cmpToRep[x] else x - nC
      modifies cmpToRep, repToCmp, world, rankadjrep
      ensures repToCmp[nR..] == old(repToCmp[nR..])
      ensures Cleared(nC, ctr, rtc, done + [x], cmpToRep[..], repToCmp[..nR])
      ensures Moved(nC, ctr, rtc, done + [x], world[..], rankadjrep[..])
    {
      hide Cleared, Moved, Survivable, BumpedAbove;
      SlotKnown(nC, nR, ctr, rtc, done, x, cmpToRep[..], repToCmp[..nR], world[..], rankadjrep[..]);
      ghost var w, adj, c1, r1 := world[..], rankadjrep[..], cmpToRep[..], repToCmp[..nR];
      if promote {
        world[x] := world[d + nC];
        world[d + nC] := NONE;
      } else {
        world[x] := NONE;
      }
      assert world[..] == if x < nC then w[x := w[nC + d]][nC + d := NONE] else w[x := NONE];
      BumpFrom(rankadjrep, d + nC + 1);
      MoveStep(nC, nR, ctr, rtc, done, x, w, adj, world[..], rankadjrep[..]);
      assert repToCmp[..nR] == r1 && repToCmp[d] == r1[d];
      if promote {
        repToCmp[d] := NONE;
        cmpToRep[x] := NONE;
      } else {
        cmpToRep[repToCmp[d]] := NONE;
        repToCmp[d] := NONE;
      }
      assert repToCmp[..nR] == r1[d := NONE];
      assert cmpToRep[..] == c1[rtc[d] := NONE];
    }

    /** Move entry i of the rank list down over the gaps below it. */
    method CloseRank(world: array<int>, rankadj: array<int>, rankadjrep: array<int>, i: int,
                     ghost ctr: seq<int>, ghost rtc: seq<int>, ghost failed: seq<int>, ghost w0: seq<int>)
      requires world.Length == rankadj.Length == rankadjrep.Length == nC + nR && world != rankadjrep && world != rankadj
      requires Paired(nC, nR, ctr, rtc) && Moved(nC, ctr, rtc, failed, w0, rankadjrep[..])
      requires 0 <= i < nC + nR && rankadj[i] == 0 && RanksClosed(nC, rtc, failed, w0, world[..], i)
      modifies world
      ensures RanksClosed(nC, rtc, failed, w0, world[..], i + 1)
    {
      hide Moved, RanksClosed, Paired, Gone, Dropped;
      PairedAt(nC, nR, ctr, rtc, 0);
      RankStep(nC, ctr, rtc, failed, w0, rankadjrep[..], world[..], i);
      if world[i] != NONE { Put(world, i - rankadj[i] - rankadjrep[i], world[i], nC + nR); }
    }

    /** Renumber the replica of rank i, if i is a compute rank that still has one. */
    method CloseCmp(rankadj: array<int>, rankadjrep: array<int>, i: int, ghost ctr: seq<int>, ghost rtc: seq<int>,
                    ghost failed: seq<int>, ghost c0: seq<int>, ghost r0: seq<int>, ghost w0: seq<int>)
      requires rankadj.Length == rankadjrep.Length == nC + nR && {rankadj, rankadjrep} !! {cmpToRep}
      requires cmpToRep.Length == nC
      requires Paired(nC, nR, ctr, rtc) && Cleared(nC, ctr, rtc, failed, c0, r0)
      requires Moved(nC, ctr, rtc, failed, w0, rankadjrep[..])
      requires 0 <= i < nC + nR && rankadj[i] == 0 && |rtc| == nR
      requires CmpClosed(nC, ctr, rtc, failed, c0, cmpToRep[..], i)
      modifies cmpToRep
      ensures CmpClosed(nC, ctr, rtc, failed, c0, cmpToRep[..], i + 1)
    {
      hide Moved, Cleared, CmpClosed, Paired, Gone, Dropped;
      CmpStep(nC, ctr, rtc, failed, c0, r0, w0, rankadjrep[..], cmpToRep[..], i);
      if i < nC && cmpToRep[i] != NONE {
        Put(cmpToRep, i - rankadj[i], cmpToRep[i] - rankadjrep[cmpToRep[i] + nC], nC);
      }
    }

    /** Move entry i of the replica map down, if there is one. */
    method CloseRep(rankadj: array<int>, rankadjrep: array<int>, i: int, ghost ctr: seq<int>, ghost rtc: seq<int>,
                    ghost failed: seq<int>, ghost c0: seq<int>, ghost r0: seq<int>, ghost w0: seq<int>)
      requires rankadj.Length == rankadjrep.Length == nC + nR && {rankadj, rankadjrep} !! {repToCmp}
      requires 0 <= nR <= repToCmp.Length
      requires Paired(nC, nR, ctr, rtc) && Cleared(nC, ctr, rtc, failed, c0, r0)
      requires Moved(nC, ctr, rtc, failed, w0, rankadjrep[..])
      requires 0 <= i < nC + nR && (forall k :: 0 <= k < nC + nR ==> rankadj[k] == 0)
      requires RepClosed(nC, rtc, failed, r0, repToCmp[..nR], i)
      modifies repToCmp
      ensures RepClosed(nC, rtc, failed, r0, repToCmp[..nR], i + 1)
    {
      hide Moved, Cleared, RepClosed, Paired, Gone, Dropped;
      PairedAt(nC, nR, ctr, rtc, 0);
      ghost var r := repToCmp[..nR];
      RepStep(nC, ctr, rtc, failed, c0, r0, w0, rankadjrep[..], r, i);
      if i < nR && repToCmp[i] != NONE {
        assert repToCmp[i] == r[i];
        Put(repToCmp, i - rankadjrep[i + nC], repToCmp[i] - rankadj[repToCmp[i]], nR);
      }
    }

    /** The compaction loop.  rankadj is all zero: no compute rank ever leaves. */
    method CloseGaps(world: array<int>, rankadj: array<int>, rankadjrep: array<int>,
                     ghost ctr: seq<int>, ghost rtc: seq<int>, ghost failed: seq<int>)
      requires Shaped() && world.Length == rankadj.Length == rankadjrep.Length == nC + nR
      requires world != rankadj && world != rankadjrep && {world, rankadj, rankadjrep} !! {cmpToRep, repToCmp}
      requires Paired(nC, nR, ctr, rtc)
      requires forall i :: 0 <= i < nC + nR ==> rankadj[i] == 0
      requires Cleared(nC, ctr, rtc, failed, cmpToRep[..], repToCmp[..nR])
      requires Moved(nC, ctr, rtc, failed, world[..], rankadjrep[..])
      modifies cmpToRep, repToCmp, world
      ensures cmpToRep[..] == NewCmpToRep(nC, ctr, rtc, failed)
      ensures NewRepToCmp(nC, rtc, failed) <= repToCmp[..nR]
      ensures NewRanks(nC, ctr, rtc, failed) <= world[..]
    {
      hide Cleared, Moved, RanksClosed, CmpClosed, RepClosed, NewCmpToRep, NewRepToCmp, NewRanks, Paired, Gone, Dropped;
      PairedAt(nC, nR, ctr, rtc, 0);
      ghost var w0, c0, r0, adj := world[..], cmpToRep[..], repToCmp[..nR], rankadjrep[..];
      NothingClosed(nC, ctr, rtc, failed, c0, r0, w0, adj);
      var i := 0;
      while i < nC + nR
        invariant 0 <= i <= nC + nR && rankadjrep[..] == adj
        invariant forall k :: 0 <= k < nC + nR ==> rankadj[k] == 0
        invariant RanksClosed(nC, rtc, failed, w0, world[..], i)
        invariant CmpClosed(nC, ctr, rtc, failed, c0, cmpToRep[..], i)
        invariant RepClosed(nC, rtc, failed, r0, repToCmp[..nR], i)
      {
        CloseRank(world, rankadj, rankadjrep, i, ctr, rtc, failed, w0);
        CloseCmp(rankadj, rankadjrep, i, ctr, rtc, failed, c0, r0, w0);
        CloseRep(rankadj, rankadjrep, i, ctr, rtc, failed, c0, r0, w0);
        i := i + 1;
      }
      ClosedTables(nC, ctr, rtc, failed, c0, r0, w0, adj, cmpToRep[..], repToCmp[..nR], world[..]);
    }

    /** The whole update, on a notice listing the failed ranks. */
    method ApplyFailures(failed: seq<int>) returns (outcome: Outcome, world: array<int>, ghost at: int)
      requires Valid() && RanksOf(nC + nR, failed)
      modifies this`nR, cmpToRep, repToCmp
      ensures outcome.Remapped? <==> Survivable(nC, old(cmpToRep[..]), old(repToCmp[..nR]), failed)
      ensures outcome.Remapped? ==>
                && Valid() && nR == old(nR) - |failed|
                && cmpToRep[..] == NewCmpToRep(nC, old(cmpToRep[..]), old(repToCmp[..nR]), failed)
                && repToCmp[..nR] == NewRepToCmp(nC, old(repToCmp[..nR]), failed)
                && nC + nR <= world.Length
                && world[..nC + nR] == NewRanks(nC, old(cmpToRep[..]), old(repToCmp[..nR]), failed)
      ensures !outcome.Remapped? ==>
                && 0 <= at < |failed|
                && Survivable(nC, old(cmpToRep[..]), old(repToCmp[..nR]), failed[..at])
                && !Survivable(nC, old(cmpToRep[..]), old(repToCmp[..nR]), failed[..at + 1])
                && (outcome.NoReplica? <==> failed[at] < nC)
    {
      hide Cleared, Moved, Survivable, Dropped, NewCmpToRep, NewRepToCmp, NewRanks;
      ghost var ctr, rtc := cmpToRep[..], repToCmp[..nR];
      var n := nC + nR;
      var rankadj, rankadjrep := new int[n], new int[n];
      world := new int[n];
      FillTables(world, rankadj, rankadjrep);
      var nRdiff;
      outcome, nRdiff, at := DropFailed(failed, world, rankadjrep);
      if outcome.Remapped? {
        CloseGaps(world, rankadj, rankadjrep, ctr, rtc, failed);
        TablesFit(nC, nR, ctr, rtc, failed);
        ghost var nR0 := nR;
        nR := nR - nRdiff;
        assert repToCmp[..nR] == NewRepToCmp(nC, rtc, failed) by { assert repToCmp[..nR] == repToCmp[..nR0][..nR]; }
      }
    }
  }

  lemma TablesFit(nC: int, nR: int, ctr: seq<int>, rtc: seq<int>, failed: seq<int>)
    requires Paired(nC, nR, ctr, rtc) && RanksOf(nC + nR, failed) && Survivable(nC, ctr, rtc, failed)
    ensures |NewRepToCmp(nC, rtc, failed)| == nR - |failed| && |NewRanks(nC, ctr, rtc, failed)| == nC + nR - |failed|
    ensures Paired(nC, nR - |failed|, NewCmpToRep(nC, ctr, rtc, failed), NewRepToCmp(nC, rtc, failed))
  {
    OneSlotPerFailure(nC, nR, ctr, rtc, failed);
    RemapKeepsPairs(nC, nR, ctr, rtc, failed);
  }

  lemma PrefixDecides(nC: int, ctr: seq<int>, rtc: seq<int>, failed: seq<int>, k: int)
    requires |ctr| == nC && 0 <= k <= |failed| && !Survivable(nC, ctr, rtc, failed[..k])
    ensures !Survivable(nC, ctr, rtc, failed)
  {
    assert forall y :: y in failed[..k] ==> y in failed;
  }

  method FillTables(world: array<int>, rankadj: array<int>, rankadjrep: array<int>)
    requires world.Length == rankadj.Length == rankadjrep.Length
    requires world != rankadj && world != rankadjrep && rankadj != rankadjrep
    modifies world, rankadj, rankadjrep
    ensures forall i :: 0 <= i < world.Length ==> world[i] == i && rankadj[i] == 0 && rankadjrep[i] == 0
  {
    for i := 0 to world.Length
      invariant forall k :: 0 <= k < i ==> world[k] == k && rankadj[k] == 0 && rankadjrep[k] == 0
    {
      rankadjrep[i] := 0;
      rankadj[i] := 0;
      world[i] := i;
    }
  }

  method BumpFrom(a: array<int>, from: int)
    requires 0 <= from
    modifies a
    ensures BumpedAbove(old(a[..]), a[..], from)
  {
    var i := from;
    while i < a.Length
      invariant from <= i
      invariant forall k :: 0 <= k < a.Length ==> a[k] == if from <= k < i then old(a[k]) + 1 else old(a[k])
    {
      a[i] := a[i] + 1;
      i := i + 1;
    }
  }

  // ---- Which way an unsurvivable notice ends ----

  ghost predicate Ascending(failed: seq<int>) {
    forall i, j :: 0 <= i < j < |failed| ==> failed[i] < failed[j]
  }

  /** Failed ranks arrive in ascending order (MPI group intersection keeps the order of the first
      group).  Then the pass aborts cleanly exactly when some failed compute rank has no replica;
      the remaining unsurvivable notices, a pair failing together, end in the index fault. */
  lemma AscendingOutcome(nC: int, nR: int, ctr: seq<int>, rtc: seq<int>, failed: seq<int>, at: int)
    requires Paired(nC, nR, ctr, rtc) && RanksOf(nC + nR, failed) && Ascending(failed)
    requires 0 <= at < |failed| && Survivable(nC, ctr, rtc, failed[..at]) && !Survivable(nC, ctr, rtc, failed[..at + 1])
    ensures failed[at] < nC <==> exists c :: 0 <= c < nC && c in failed && ctr[c] == NONE
  {
    var x := failed[at];
    assert failed[..at + 1] == failed[..at] + [x];
    forall y ensures y in failed[..at + 1] <==> y in failed[..at] || y == x {}
    var upTo := failed[..at + 1];
    assert forall i :: 0 <= i < |upTo| ==> upTo[i] <= x;
    assert x in failed;
    if x < nC {
      assert ctr[x] == NONE;
    }
    if c :| 0 <= c < nC && c in failed && ctr[c] == NONE {
      var before := failed[..at];
      assert c !in before;
      assert forall i :: 0 <= i < at ==> failed[i] == before[i];
    }
  }

  /** One rank and its replica fail together: the first failure promotes the replica, the second finds
      its slot already empty. */
  lemma BothHalvesFail()
    ensures Paired(1, 1, [0], [0]) && RanksOf(2, [0, 1])
    ensures Survivable(1, [0], [0], [0, 1][..1]) && !Survivable(1, [0], [0], [0, 1][..2]) && [0, 1][1] >= 1
  {
    assert [0, 1][..1] == [0] && [0, 1][..2] == [0, 1];
    assert 1 + 0 in [0, 1] && [0][0] in [0, 1];
  }

  // ---- Runs ----

  /** The topology with the original process behind every current rank. */
  datatype World = World(nC: int, nR: int, ctr: seq<int>, rtc: seq<int>, host: seq<int>)

  ghost function Hosts(host: seq<int>, ranks: seq<int>): seq<int>
    requires forall i :: 0 <= i < |ranks| ==> 0 <= ranks[i] < |host|
  {
    seq(|ranks|, i requires 0 <= i < |ranks| => host[ranks[i]])
  }

  /** copy[p] is the logical rank process p began as a copy of; dead is the set of failed processes. */
  ghost predicate Hosted(w: World, copy: seq<int>, dead: set<int>) {
    && Paired(w.nC, w.nR, w.ctr, w.rtc) && |w.host| == w.nC + w.nR
    && (forall i :: 0 <= i < |w.host| ==> 0 <= w.host[i] < |copy| && w.host[i] !in dead)
    && (forall i, j :: 0 <= i < j < |w.host| ==> w.host[i] != w.host[j])
    && (forall p :: 0 <= p < |copy| && p !in dead ==> p in w.host)
    && (forall c :: 0 <= c < w.nC ==> copy[w.host[c]] == c)
    && (forall i :: w.nC <= i < |w.host| ==> copy[w.host[i]] == w.rtc[i - w.nC])
  }

  ghost function Killed(w: World, failed: seq<int>): set<int>
    requires RanksOf(|w.host|, failed)
  {
    set j | 0 <= j < |failed| :: w.host[failed[j]]
  }

  /** Some process that began as a copy of logical rank c is not dead. */
  ghost predicate HasLiveCopy(copy: seq<int>, dead: set<int>, c: int) {
    exists p :: 0 <= p < |copy| && copy[p] == c && p !in dead
  }

  lemma KilledIff(w: World, copy: seq<int>, dead: set<int>, failed: seq<int>, i: int)
    requires Hosted(w, copy, dead) && RanksOf(|w.host|, failed) && 0 <= i < |w.host|
    ensures w.host[i] in Killed(w, failed) <==> i in failed
  {
    if i in failed {
      var j :| 0 <= j < |failed| && failed[j] == i;
      assert w.host[failed[j]] == w.host[i];
    }
  }

  /** A live copy of c sits at rank c or at the replica of c. */
  lemma CopyAt(w: World, copy: seq<int>, dead: set<int>, p: int, c: int)
    requires Hosted(w, copy, dead) && 0 <= p < |copy| && copy[p] == c && p !in dead && 0 <= c < w.nC
    ensures p == w.host[c] || (w.ctr[c] != NONE && p == w.host[w.nC + w.ctr[c]])
  {
    var i :| 0 <= i < |w.host| && w.host[i] == p;
    if i >= w.nC { assert w.rtc[i - w.nC] == c; }
  }

  /** A notice can be absorbed exactly when every logical rank keeps a live copy. */
  lemma SurvivableIffCopiesLive(w: World, copy: seq<int>, dead: set<int>, failed: seq<int>)
    requires Hosted(w, copy, dead) && RanksOf(|w.host|, failed)
    ensures Survivable(w.nC, w.ctr, w.rtc, failed)
        <==> forall c :: 0 <= c < w.nC ==> HasLiveCopy(copy, dead + Killed(w, failed), c)
  {
    var dead' := dead + Killed(w, failed);
    forall c | 0 <= c < w.nC
      ensures HasLiveCopy(copy, dead', c) <==> KeepsOne(w.nC, w.ctr, failed, c)
    {
      LiveCopyIff(w, copy, dead, failed, c);
    }
    KeepsOneIffSurvivable(w.nC, w.nR, w.ctr, w.rtc, failed);
  }

  ghost predicate KeepsOne(nC: int, ctr: seq<int>, failed: seq<int>, c: int)
    requires 0 <= c < |ctr|
  {
    c !in failed || (ctr[c] != NONE && nC + ctr[c] !in failed)
  }

  lemma KeepsOneIffSurvivable(nC: int, nR: int, ctr: seq<int>, rtc: seq<int>, failed: seq<int>)
    requires Paired(nC, nR, ctr, rtc)
    ensures Survivable(nC, ctr, rtc, failed) <==> forall c :: 0 <= c < nC ==> KeepsOne(nC, ctr, failed, c)
  {
    if forall c :: 0 <= c < nC ==> KeepsOne(nC, ctr, failed, c) {
      forall r | 0 <= r < nR
        ensures !(nC + r in failed && rtc[r] in failed)
      {
        assert KeepsOne(nC, ctr, failed, rtc[r]);
      }
      forall c | 0 <= c < nC && c in failed
        ensures ctr[c] != NONE
      {
        assert KeepsOne(nC, ctr, failed, c);
      }
    }
  }

  lemma LiveCopyIff(w: World, copy: seq<int>, dead: set<int>, failed: seq<int>, c: int)
    requires Hosted(w, copy, dead) && RanksOf(|w.host|, failed) && 0 <= c < w.nC
    ensures HasLiveCopy(copy, dead + Killed(w, failed), c)
        <==> KeepsOne(w.nC, w.ctr, failed, c)
  {
    hide Killed;
    var dead' := dead + Killed(w, failed);
    KilledIff(w, copy, dead, failed, c);
    if w.ctr[c] != NONE { KilledIff(w, copy, dead, failed, w.nC + w.ctr[c]); }
    if KeepsOne(w.nC, w.ctr, failed, c) {
      var i := if c !in failed then c else w.nC + w.ctr[c];
      assert copy[w.host[i]] == c && w.host[i] !in dead';
    } else if HasLiveCopy(copy, dead', c) {
      var p :| 0 <= p < |copy| && copy[p] == c && p !in dead';
      CopyAt(w, copy, dead, p, c);
    }
  }

  /** The world after a notice that could be absorbed: Group_incl renumbers the survivors. */
  ghost function After(w: World, failed: seq<int>): World
    requires Paired(w.nC, w.nR, w.ctr, w.rtc) && |w.host| == w.nC + w.nR && Survivable(w.nC, w.ctr, w.rtc, failed)
  {
    RanksAreSurvivors(w.nC, w.nR, w.ctr, w.rtc, failed);
    var rtc' := NewRepToCmp(w.nC, w.rtc, failed);
    World(w.nC, |rtc'|, NewCmpToRep(w.nC, w.ctr, w.rtc, failed), rtc',
          Hosts(w.host, NewRanks(w.nC, w.ctr, w.rtc, failed)))
  }

  lemma AfterStaysHosted(w: World, copy: seq<int>, dead: set<int>, failed: seq<int>)
    requires Hosted(w, copy, dead) && RanksOf(|w.host|, failed) && Survivable(w.nC, w.ctr, w.rtc, failed)
    ensures Hosted(After(w, failed), copy, dead + Killed(w, failed))
  {
    hide NewRanks, NewRepToCmp, NewCmpToRep, Survivable, Killed, Hosts, ListsSurvivors;
    var ranks := NewRanks(w.nC, w.ctr, w.rtc, failed);
    RemapKeepsPairs(w.nC, w.nR, w.ctr, w.rtc, failed);
    RanksAreSurvivors(w.nC, w.nR, w.ctr, w.rtc, failed);
    SlotsAreCopies(w.nC, w.nR, w.ctr, w.rtc, failed);
    HostsOfSurvivors(w, copy, dead, failed, ranks);
    SlotCopies(w, copy, dead, ranks, NewRepToCmp(w.nC, w.rtc, failed));
  }

  lemma HostsOfSurvivors(w: World, copy: seq<int>, dead: set<int>, failed: seq<int>, ranks: seq<int>)
    requires Hosted(w, copy, dead) && RanksOf(|w.host|, failed) && ListsSurvivors(|w.host|, failed, ranks)
    ensures var host' := Hosts(w.host, ranks); var dead' := dead + Killed(w, failed);
      && |host'| == |ranks|
      && (forall i :: 0 <= i < |host'| ==> 0 <= host'[i] < |copy| && host'[i] !in dead')
      && (forall i, j :: 0 <= i < j < |host'| ==> host'[i] != host'[j])
      && (forall p :: 0 <= p < |copy| && p !in dead' ==> p in host')
  {
    var host' := Hosts(w.host, ranks);
    forall i | 0 <= i < |host'|
      ensures host'[i] !in Killed(w, failed)
    {
      KilledIff(w, copy, dead, failed, ranks[i]);
    }
    forall p | 0 <= p < |copy| && p !in dead + Killed(w, failed)
      ensures p in host'
    {
      var i :| 0 <= i < |w.host| && w.host[i] == p;
      KilledIff(w, copy, dead, failed, i);
      var k :| 0 <= k < |ranks| && ranks[k] == i;
      assert host'[k] == p;
    }
  }

  lemma SlotCopies(w: World, copy: seq<int>, dead: set<int>, ranks: seq<int>, rtc': seq<int>)
    requires Hosted(w, copy, dead) && |ranks| == w.nC + |rtc'|
    requires forall i :: 0 <= i < |ranks| ==> 0 <= ranks[i] < |w.host|
    requires forall c :: 0 <= c < w.nC ==> ranks[c] == c || (w.ctr[c] != NONE && ranks[c] == w.nC + w.ctr[c])
    requires forall i :: w.nC <= i < |ranks| ==>
      w.nC <= ranks[i] < w.nC + w.nR && rtc'[i - w.nC] == w.rtc[ranks[i] - w.nC]
    ensures var host' := Hosts(w.host, ranks);
      && |host'| == |ranks|
      && (forall i :: 0 <= i < |host'| ==> 0 <= host'[i] < |copy|)
      && (forall c :: 0 <= c < w.nC ==> copy[host'[c]] == c)
      && (forall i :: w.nC <= i < |host'| ==> copy[host'[i]] == rtc'[i - w.nC])
  {
    var host' := Hosts(w.host, ranks);
    forall c | 0 <= c < w.nC
      ensures copy[host'[c]] == c
    {
      assert host'[c] == w.host[ranks[c]];
    }
    forall i | w.nC <= i < |host'|
      ensures copy[host'[i]] == rtc'[i - w.nC]
    {
      assert host'[i] == w.host[ranks[i]];
    }
  }

  /** A run: the notices processed so far, each absorbed. */
  ghost predicate Runs(w: World, notices: seq<seq<int>>, w': World)
    decreases |notices|
  {
    if notices == [] then w' == w
    else
      && Paired(w.nC, w.nR, w.ctr, w.rtc) && |w.host| == w.nC + w.nR && RanksOf(|w.host|, notices[0])
      && Survivable(w.nC, w.ctr, w.rtc, notices[0]) && Runs(After(w, notices[0]), notices[1..], w')
  }

  /** The processes a run has lost. */
  ghost function Lost(w: World, notices: seq<seq<int>>, w': World): set<int>
    requires Runs(w, notices, w')
    decreases |notices|
  {
    if notices == [] then {} else Killed(w, notices[0]) + Lost(After(w, notices[0]), notices[1..], w')
  }

  /** Over every run, each logical rank stays hosted by one live process that began as its copy. */
  lemma {:induction false} RunsStayHosted(w: World, copy: seq<int>, dead: set<int>, notices: seq<seq<int>>, w': World)
    requires Hosted(w, copy, dead) && Runs(w, notices, w')
    ensures Hosted(w', copy, dead + Lost(w, notices, w')) && w'.nC == w.nC
    decreases |notices|
  {
    if notices != [] {
      AfterStaysHosted(w, copy, dead, notices[0]);
      RunsStayHosted(After(w, notices[0]), copy, dead + Killed(w, notices[0]), notices[1..], w');
      assert dead + Killed(w, notices[0]) + Lost(After(w, notices[0]), notices[1..], w') == dead + Lost(w, notices, w');
    } else {
      assert dead + {} == dead;
    }
  }

  /** The job starts with process c computing rank c and process nC + r replicating rank rtc[r]. */
  lemma StartsHosted(nC: int, nR: int, ctr: seq<int>, rtc: seq<int>)
    requires Paired(nC, nR, ctr, rtc)
    ensures Hosted(StartWorld(nC, nR, ctr, rtc), StartCopies(nC, rtc), {})
  {
    var w, copy := StartWorld(nC, nR, ctr, rtc), StartCopies(nC, rtc);
    forall p | 0 <= p < |copy|
      ensures p in w.host
    {
      assert w.host[p] == p;
    }
  }

  ghost function StartWorld(nC: int, nR: int, ctr: seq<int>, rtc: seq<int>): World
    requires 0 <= nC && 0 <= nR
  {
    World(nC, nR, ctr, rtc, seq(nC + nR, i => i))
  }

  ghost function StartCopies(nC: int, rtc: seq<int>): seq<int>
    requires 0 <= nC
  {
    seq(nC + |rtc|, p requires 0 <= p < nC + |rtc| => if p < nC then p else rtc[p - nC])
  }

  /** After any run from the start, the next notice is absorbed exactly when every logical rank
      still has a live copy; so a run ends only when some rank has lost its last one. */
  lemma RunEndsOnlyWhenARankIsLost(nC: int, nR: int, ctr: seq<int>, rtc: seq<int>, notices: seq<seq<int>>, w': World,
                                   failed: seq<int>)
    requires Paired(nC, nR, ctr, rtc)
    requires Runs(StartWorld(nC, nR, ctr, rtc), notices, w') && RanksOf(|w'.host|, failed)
    ensures var w := StartWorld(nC, nR, ctr, rtc); var copy := StartCopies(nC, rtc);
      && Hosted(w', copy, Lost(w, notices, w'))
      && (Survivable(w'.nC, w'.ctr, w'.rtc, failed)
          <==> forall c :: 0 <= c < nC ==> HasLiveCopy(copy, Lost(w, notices, w') + Killed(w', failed), c))
  {
    var w, copy := StartWorld(nC, nR, ctr, rtc), StartCopies(nC, rtc);
    StartsHosted(nC, nR, ctr, rtc);
    RunsStayHosted(w, copy, {}, notices, w');
    assert {} + Lost(w, notices, w') == Lost(w, notices, w');
    SurvivableIffCopiesLive(w', copy, Lost(w, notices, w'), failed);
  }
}
