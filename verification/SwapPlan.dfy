/** Planning a replica swap when ranks are predicted to fail: each predicted rank whose own replica
    cannot be relied on is given one taken from a healthy pair. */
module SwapPlan {
  import opened FailureRemap
  import opened Sequences

  /** Slot k can be taken: neither the replica nor the compute rank it serves is predicted to fail. */
  ghost predicate Available(nC: int, rtc: seq<int>, healthy: seq<bool>, k: int)
    requires 0 <= k < |rtc| && 0 <= rtc[k] < nC && |healthy| == nC + |rtc|
  {
    healthy[nC + k] && healthy[rtc[k]]
  }

  ghost predicate Ranks(nC: int, nR: int, ctr: seq<int>, rtc: seq<int>, healthy: seq<bool>) {
    Paired(nC, nR, ctr, rtc) && |healthy| == nC + nR
  }

  /** The available slots among the first k, in order. */
  ghost function AvailableSlots(nC: int, nR: int, ctr: seq<int>, rtc: seq<int>, healthy: seq<bool>, k: int)
    : (s: seq<int>)
    requires Ranks(nC, nR, ctr, rtc, healthy) && 0 <= k <= nR
    ensures forall i :: 0 <= i < |s| ==> 0 <= s[i] < k && Available(nC, rtc, healthy, s[i])
    ensures forall i, j :: 0 <= i < j < |s| ==> s[i] < s[j]
    ensures forall r :: 0 <= r < k && Available(nC, rtc, healthy, r) ==> r in s
  {
    if k == 0 then []
    else
      var s := AvailableSlots(nC, nR, ctr, rtc, healthy, k - 1);
      if Available(nC, rtc, healthy, k - 1) then s + [k - 1] else s
  }

  /** The compute rank a predicted rank belongs to. */
  ghost function RankOf(nC: int, rtc: seq<int>, x: int): int
    requires 0 <= x < nC + |rtc| && 0 <= nC
  {
    if x < nC then x else rtc[x - nC]
  }

  /** A predicted compute rank without a healthy replica, or a predicted replica of an unhealthy rank. */
  ghost predicate Needy(nC: int, nR: int, ctr: seq<int>, rtc: seq<int>, healthy: seq<bool>, x: int)
    requires Ranks(nC, nR, ctr, rtc, healthy) && 0 <= x < nC + nR
  {
    if x < nC then ctr[x] == NONE || !healthy[nC + ctr[x]] else !healthy[rtc[x - nC]]
  }

  /** The compute ranks of the needy entries, in the order of the notice. */
  ghost function NeedyRanks(nC: int, nR: int, ctr: seq<int>, rtc: seq<int>, healthy: seq<bool>, entries: seq<int>)
    : (s: seq<int>)
    requires Ranks(nC, nR, ctr, rtc, healthy) && forall j :: 0 <= j < |entries| ==> 0 <= entries[j] < nC + nR
    ensures forall i :: 0 <= i < |s| ==> 0 <= s[i] < nC
  {
    if entries == [] then []
    else
      var x := entries[|entries| - 1];
      NeedyRanks(nC, nR, ctr, rtc, healthy, entries[..|entries| - 1])
      + if Needy(nC, nR, ctr, rtc, healthy, x) then [RankOf(nC, rtc, x)] else []
  }

  // ---- The plan so far: rank cs[j] has been given slot ks[j] ----

  ghost predicate Touched(rtc: seq<int>, cs: seq<int>, ks: seq<int>, c: int) {
    c in cs || exists j :: 0 <= j < |ks| && 0 <= ks[j] < |rtc| && rtc[ks[j]] == c
  }

  ghost predicate SlotTouched(ctr: seq<int>, cs: seq<int>, ks: seq<int>, r: int) {
    r in ks || exists j :: 0 <= j < |cs| && 0 <= cs[j] < |ctr| && ctr[cs[j]] == r
  }

  ghost predicate Pairs(nC: int, nR: int, ctr: seq<int>, rtc: seq<int>, healthy: seq<bool>, cs: seq<int>,
                        ks: seq<int>) {
    && Ranks(nC, nR, ctr, rtc, healthy) && |cs| == |ks| && NoRepeats(ks)
    && (forall j :: 0 <= j < |cs| ==>
          0 <= cs[j] < nC && !healthy[cs[j]] && (ctr[cs[j]] != NONE ==> !healthy[nC + ctr[cs[j]]]))
    && (forall j :: 0 <= j < |ks| ==> 0 <= ks[j] < nR && Available(nC, rtc, healthy, ks[j]))
  }

  ghost predicate Planned(nC: int, nR: int, ctr: seq<int>, rtc: seq<int>, cs: seq<int>, ks: seq<int>, ctr1: seq<int>,
                          rtc1: seq<int>) {
    && |ctr1| == nC && |rtc1| == nR && |cs| == |ks|
    && (forall j :: 0 <= j < |ks| ==> 0 <= ks[j] < nR && rtc1[ks[j]] == cs[j])
    && (forall j :: 0 <= j < |ks| && ks[j] < |rtc| && 0 <= rtc[ks[j]] < nC && 0 <= cs[j] < |ctr| ==>
          ctr1[rtc[ks[j]]] == ctr[cs[j]])
    && (forall c :: 0 <= c < nC && c < |ctr| && !Touched(rtc, cs, ks, c) ==> ctr1[c] == ctr[c])
    && (forall r :: 0 <= r < nR && r < |rtc| && !SlotTouched(ctr, cs, ks, r) ==> rtc1[r] == rtc[r])
    && (NoRepeats(cs) ==> Paired(nC, nR, ctr1, rtc1))
  }

  /** One assignment: rank c takes slot k, and the rank that had k takes what c had. */
  ghost function SwapCmp(ctr: seq<int>, rtc: seq<int>, ctr1: seq<int>, c: int, k: int): seq<int>
    requires |ctr1| == |ctr| && 0 <= c < |ctr| && 0 <= k < |rtc| && 0 <= rtc[k] < |ctr|
  {
    ctr1[c := k][rtc[k] := ctr[c]]
  }

  ghost function SwapRep(ctr: seq<int>, rtc: seq<int>, rtc1: seq<int>, c: int, k: int): seq<int>
    requires |rtc1| == |rtc| && 0 <= c < |ctr| && 0 <= k < |rtc| && (ctr[c] == NONE || 0 <= ctr[c] < |rtc|)
  {
    if ctr[c] == NONE then rtc1[k := c] else rtc1[k := c][ctr[c] := rtc[k]]
  }

  /** Swapping the slots of two ranks in mutually inverse maps leaves them mutually inverse. */
  lemma SwapKeepsPaired(nC: int, nR: int, ctr: seq<int>, rtc: seq<int>, c: int, k: int)
    requires Paired(nC, nR, ctr, rtc) && 0 <= c < nC && 0 <= k < nR && rtc[k] != c
    ensures Paired(nC, nR, SwapCmp(ctr, rtc, ctr, c, k), SwapRep(ctr, rtc, rtc, c, k))
  {
  }

  ghost predicate CanTake(nC: int, nR: int, ctr: seq<int>, rtc: seq<int>, healthy: seq<bool>, ks: seq<int>, c: int,
                          k: int) {
    && Ranks(nC, nR, ctr, rtc, healthy)
    && 0 <= c < nC && !healthy[c] && (ctr[c] != NONE ==> !healthy[nC + ctr[c]])
    && 0 <= k < nR && Available(nC, rtc, healthy, k) && k !in ks
  }

  lemma PairsStep(nC: int, nR: int, ctr: seq<int>, rtc: seq<int>, healthy: seq<bool>, cs: seq<int>, ks: seq<int>,
                  c: int, k: int)
    requires Pairs(nC, nR, ctr, rtc, healthy, cs, ks) && CanTake(nC, nR, ctr, rtc, healthy, ks, c, k)
    ensures Pairs(nC, nR, ctr, rtc, healthy, cs + [c], ks + [k])
  {
  }

  /** A rank or slot the plan has not touched is still as in the current maps. */
  lemma Untouched(nC: int, nR: int, ctr: seq<int>, rtc: seq<int>, healthy: seq<bool>, cs: seq<int>, ks: seq<int>,
                  ctr1: seq<int>, rtc1: seq<int>, c: int, k: int)
    requires Pairs(nC, nR, ctr, rtc, healthy, cs, ks) && Planned(nC, nR, ctr, rtc, cs, ks, ctr1, rtc1)
    requires CanTake(nC, nR, ctr, rtc, healthy, ks, c, k) && c !in cs
    ensures ctr1[c] == ctr[c] && ctr1[rtc[k]] == k && rtc1[k] == rtc[k] && (ctr[c] != NONE ==> rtc1[ctr[c]] == c)
  {
    assert !Touched(rtc, cs, ks, c);
    assert !Touched(rtc, cs, ks, rtc[k]);
    assert !SlotTouched(ctr, cs, ks, k);
    assert ctr[c] != NONE ==> !SlotTouched(ctr, cs, ks, ctr[c]);
  }

  lemma AssignKeepsPaired(nC: int, nR: int, ctr: seq<int>, rtc: seq<int>, healthy: seq<bool>, cs: seq<int>,
                          ks: seq<int>, ctr1: seq<int>, rtc1: seq<int>, c: int, k: int)
    requires Pairs(nC, nR, ctr, rtc, healthy, cs, ks) && Planned(nC, nR, ctr, rtc, cs, ks, ctr1, rtc1)
    requires CanTake(nC, nR, ctr, rtc, healthy, ks, c, k) && NoRepeats(cs + [c])
    ensures Paired(nC, nR, SwapCmp(ctr, rtc, ctr1, c, k), SwapRep(ctr, rtc, rtc1, c, k))
  {
    hide Touched, SlotTouched;
    assert forall j :: 0 <= j < |cs| ==> (cs + [c])[j] == cs[j];
    assert (cs + [c])[|cs|] == c;
    assert c !in cs && NoRepeats(cs);
    Untouched(nC, nR, ctr, rtc, healthy, cs, ks, ctr1, rtc1, c, k);
    SwapKeepsPaired(nC, nR, ctr1, rtc1, c, k);
  }

  lemma TouchedStep(rtc: seq<int>, cs: seq<int>, ks: seq<int>, c: int, k: int, x: int)
    requires 0 <= k < |rtc| && !Touched(rtc, cs + [c], ks + [k], x)
    ensures !Touched(rtc, cs, ks, x) && x != c && x != rtc[k]
  {
    assert (cs + [c])[|cs|] == c && (ks + [k])[|ks|] == k;
    assert forall j :: 0 <= j < |cs| ==> (cs + [c])[j] == cs[j];
    assert forall j :: 0 <= j < |ks| ==> (ks + [k])[j] == ks[j];
  }

  lemma SlotTouchedStep(ctr: seq<int>, cs: seq<int>, ks: seq<int>, c: int, k: int, r: int)
    requires 0 <= c < |ctr| && !SlotTouched(ctr, cs + [c], ks + [k], r)
    ensures !SlotTouched(ctr, cs, ks, r) && r != k && r != ctr[c]
  {
    assert (cs + [c])[|cs|] == c && (ks + [k])[|ks|] == k;
    assert forall j :: 0 <= j < |cs| ==> (cs + [c])[j] == cs[j];
    assert forall j :: 0 <= j < |ks| ==> (ks + [k])[j] == ks[j];
  }

  lemma AssignStep(nC: int, nR: int, ctr: seq<int>, rtc: seq<int>, healthy: seq<bool>, cs: seq<int>, ks: seq<int>,
                   ctr1: seq<int>, rtc1: seq<int>, c: int, k: int)
    requires Pairs(nC, nR, ctr, rtc, healthy, cs, ks) && Planned(nC, nR, ctr, rtc, cs, ks, ctr1, rtc1)
    requires CanTake(nC, nR, ctr, rtc, healthy, ks, c, k)
    ensures Planned(nC, nR, ctr, rtc, cs + [c], ks + [k], SwapCmp(ctr, rtc, ctr1, c, k), SwapRep(ctr, rtc, rtc1, c, k))
  {
    hide Touched, SlotTouched;
    var ctr2, rtc2 := SwapCmp(ctr, rtc, ctr1, c, k), SwapRep(ctr, rtc, rtc1, c, k);
    forall j | 0 <= j < |ks + [k]|
      ensures rtc2[(ks + [k])[j]] == (cs + [c])[j] && ctr2[rtc[(ks + [k])[j]]] == ctr[(cs + [c])[j]]
    {
      assert Available(nC, rtc, healthy, (ks + [k])[j]);
      if j < |ks| { assert ks[j] != k && rtc[ks[j]] != rtc[k]; }
    }
    forall x | 0 <= x < nC && !Touched(rtc, cs + [c], ks + [k], x)
      ensures ctr2[x] == ctr[x]
    {
      TouchedStep(rtc, cs, ks, c, k, x);
    }
    forall r | 0 <= r < nR && !SlotTouched(ctr, cs + [c], ks + [k], r)
      ensures rtc2[r] == rtc[r]
    {
      SlotTouchedStep(ctr, cs, ks, c, k, r);
    }
    if NoRepeats(cs + [c]) {
      AssignKeepsPaired(nC, nR, ctr, rtc, healthy, cs, ks, ctr1, rtc1, c, k);
    }
  }

  /** Two entries for the same rank leave two slots claiming it. */
  lemma RepeatBreaksPairs(nC: int, nR: int, ctr: seq<int>, rtc: seq<int>, healthy: seq<bool>, cs: seq<int>,
                          ks: seq<int>, ctr1: seq<int>, rtc1: seq<int>)
    requires Pairs(nC, nR, ctr, rtc, healthy, cs, ks) && Planned(nC, nR, ctr, rtc, cs, ks, ctr1, rtc1)
    ensures Paired(nC, nR, ctr1, rtc1) <==> NoRepeats(cs)
  {
    if Paired(nC, nR, ctr1, rtc1) {
      forall i, j | 0 <= i < j < |cs|
        ensures cs[i] != cs[j]
      {
        assert rtc1[ks[i]] == cs[i] && rtc1[ks[j]] == cs[j] && ks[i] != ks[j];
      }
    }
  }

  // ---- The planning loops ----

  ghost predicate UsedUpTo(used: seq<bool>, avail: seq<int>, m: int) {
    0 <= m <= |avail| && forall k :: 0 <= k < |used| ==> (used[k] <==> k in avail[..m])
  }

  /** The first unused available slot, marked used; NONE when they are all gone. */
  method TakeSlot(nC: int, nR: int, ghost ctr: seq<int>, rtc: seq<int>, healthy: seq<bool>, used: array<bool>, cur: int,
                  ghost m: int)
    returns (slot: int)
    requires Ranks(nC, nR, ctr, rtc, healthy) && used.Length == nR && 0 <= cur < nC + nR && !healthy[cur]
    requires UsedUpTo(used[..], AvailableSlots(nC, nR, ctr, rtc, healthy, nR), m)
    modifies used
    ensures var avail := AvailableSlots(nC, nR, ctr, rtc, healthy, nR);
      && (m < |avail| ==> slot == avail[m] && UsedUpTo(used[..], avail, m + 1))
      && (m == |avail| ==> slot == NONE && UsedUpTo(used[..], avail, m))
  {
    hide UsedUpTo, AvailableSlots;
    ghost var avail := AvailableSlots(nC, nR, ctr, rtc, healthy, nR);
    ghost var u0 := used[..];
    UsedFacts(u0, avail, m);
    NotInPrefix(avail, m);
    slot := NONE;
    var k := 0;
    while k < nR
      invariant 0 <= k <= nR && used[..] == u0 && slot == NONE
      invariant forall r :: 0 <= r < k && Available(nC, rtc, healthy, r) ==> r in avail[..m]
    {
      if !used[k] {
        if healthy[k + nC] && healthy[rtc[k]] && (if cur < nC then rtc[k] != cur else k + nC != cur) {
          FirstUnused(avail, m, k);
          slot := k;
          used[k] := true;
          assert used[..] == u0[k := true];
          UsedStep(u0, avail, m, k);
          return;
        }
      }
      k := k + 1;
    }
  }

  lemma UsedFacts(used: seq<bool>, avail: seq<int>, m: int)
    requires UsedUpTo(used, avail, m)
    ensures 0 <= m <= |avail| && forall k :: 0 <= k < |used| ==> (used[k] <==> k in avail[..m])
  {
  }

  lemma UsedStep(used: seq<bool>, avail: seq<int>, m: int, k: int)
    requires UsedUpTo(used, avail, m) && m < |avail| && avail[m] == k && 0 <= k < |used|
    ensures UsedUpTo(used[k := true], avail, m + 1)
  {
    assert avail[..m + 1] == avail[..m] + [k];
  }

  lemma NotInPrefix(avail: seq<int>, m: int)
    requires 0 <= m <= |avail| && (forall i, j :: 0 <= i < j < |avail| ==> avail[i] < avail[j])
    ensures m < |avail| ==> avail[m] !in avail[..m]
  {
  }

  lemma FirstUnused(avail: seq<int>, m: int, k: int)
    requires 0 <= m <= |avail| && (forall i, j :: 0 <= i < j < |avail| ==> avail[i] < avail[j])
    requires k in avail && k !in avail[..m] && forall i :: 0 <= i < |avail| && avail[i] < k ==> avail[i] in avail[..m]
    ensures m < |avail| && avail[m] == k
  {
    var i :| 0 <= i < |avail| && avail[i] == k;
    var pre := avail[..m];
    assert forall j :: 0 <= j < m ==> pre[j] == avail[j];
    assert i >= m;
    NotInPrefix(avail, m);
  }

  ghost predicate Entries(nC: int, nR: int, healthy: seq<bool>, entries: seq<int>)
    requires |healthy| == nC + nR
  {
    forall j :: 0 <= j < |entries| ==> 0 <= entries[j] < nC + nR && !healthy[entries[j]]
  }

  ghost function Min(a: int, b: int): int { if a < b then a else b }

  /** After the notice has been read up to some point: needy ranks have been served with available
      slots, first come first served, until the slots ran out. */
  ghost predicate Served(nC: int, nR: int, ctr: seq<int>, rtc: seq<int>, healthy: seq<bool>, needy: seq<int>,
                         used: seq<bool>, ctr1: seq<int>, rtc1: seq<int>)
    requires Ranks(nC, nR, ctr, rtc, healthy)
  {
    var avail := AvailableSlots(nC, nR, ctr, rtc, healthy, nR);
    var m := Min(|needy|, |avail|);
    && |used| == nR && UsedUpTo(used, avail, m)
    && Pairs(nC, nR, ctr, rtc, healthy, needy[..m], avail[..m])
    && Planned(nC, nR, ctr, rtc, needy[..m], avail[..m], ctr1, rtc1)
  }

  lemma NothingServed(nC: int, nR: int, ctr: seq<int>, rtc: seq<int>, healthy: seq<bool>, used: seq<bool>)
    requires Ranks(nC, nR, ctr, rtc, healthy) && |used| == nR && forall k :: 0 <= k < nR ==> !used[k]
    ensures Served(nC, nR, ctr, rtc, healthy, [], used, ctr, rtc)
  {
  }

  /** A needy rank when slots remain: the next slot is taken and the maps are swapped. */
  lemma ServeStep(nC: int, nR: int, ctr: seq<int>, rtc: seq<int>, healthy: seq<bool>, needy: seq<int>, c: int,
                  used: seq<bool>, used': seq<bool>, ctr1: seq<int>, rtc1: seq<int>)
    requires Ranks(nC, nR, ctr, rtc, healthy) && Served(nC, nR, ctr, rtc, healthy, needy, used, ctr1, rtc1)
    requires |used'| == nR
    requires 0 <= c < nC && !healthy[c] && (ctr[c] != NONE ==> !healthy[nC + ctr[c]])
    requires var avail := AvailableSlots(nC, nR, ctr, rtc, healthy, nR);
      |needy| < |avail| && UsedUpTo(used', avail, |needy| + 1)
    ensures var k := AvailableSlots(nC, nR, ctr, rtc, healthy, nR)[|needy|];
      && |ctr1| == nC && |rtc1| == nR
      && Served(nC, nR, ctr, rtc, healthy, needy + [c], used',
                SwapCmp(ctr, rtc, ctr1, c, k), SwapRep(ctr, rtc, rtc1, c, k))
  {
    hide Pairs, Planned, UsedUpTo, AvailableSlots, SwapCmp, SwapRep;
    var avail := AvailableSlots(nC, nR, ctr, rtc, healthy, nR);
    var m := |needy|;
    var k := avail[m];
    NotInPrefix(avail, m);
    assert needy[..m] == needy && (needy + [c])[..m + 1] == needy + [c] && avail[..m + 1] == avail[..m] + [k];
    PlannedSizes(nC, nR, ctr, rtc, needy, avail[..m], ctr1, rtc1);
    PairsStep(nC, nR, ctr, rtc, healthy, needy, avail[..m], c, k);
    AssignStep(nC, nR, ctr, rtc, healthy, needy, avail[..m], ctr1, rtc1, c, k);
  }

  lemma PlannedSizes(nC: int, nR: int, ctr: seq<int>, rtc: seq<int>, cs: seq<int>, ks: seq<int>, ctr1: seq<int>,
                     rtc1: seq<int>)
    requires Planned(nC, nR, ctr, rtc, cs, ks, ctr1, rtc1)
    ensures |ctr1| == nC && |rtc1| == nR
  {
  }

  /** A needy rank when the slots are gone: nothing changes. */
  lemma StarveStep(nC: int, nR: int, ctr: seq<int>, rtc: seq<int>, healthy: seq<bool>, needy: seq<int>, c: int,
                   used: seq<bool>, ctr1: seq<int>, rtc1: seq<int>)
    requires Ranks(nC, nR, ctr, rtc, healthy) && Served(nC, nR, ctr, rtc, healthy, needy, used, ctr1, rtc1)
    requires |needy| >= |AvailableSlots(nC, nR, ctr, rtc, healthy, nR)|
    ensures Served(nC, nR, ctr, rtc, healthy, needy + [c], used, ctr1, rtc1)
  {
    hide Pairs, Planned, UsedUpTo;
    var m := |AvailableSlots(nC, nR, ctr, rtc, healthy, nR)|;
    assert (needy + [c])[..m] == needy[..m];
  }

  /** Give rank c the next available slot, if any: c's own slot, good or not, goes to the rank that loses one. */
  method Reassign(nC: int, nR: int, ctr: seq<int>, rtc: seq<int>, healthy: seq<bool>, cur: int, c: int,
                  used: array<bool>, ctrmap: array<int>, rtcmap: array<int>, ghost needy: seq<int>)
    returns (swapped: bool)
    requires Ranks(nC, nR, ctr, rtc, healthy) && 0 <= cur < nC + nR && !healthy[cur] && c == RankOf(nC, rtc, cur)
    requires !healthy[c] && (ctr[c] != NONE ==> !healthy[nC + ctr[c]])
    requires ctrmap != rtcmap && Served(nC, nR, ctr, rtc, healthy, needy, used[..], ctrmap[..], rtcmap[..])
    modifies used, ctrmap, rtcmap
    ensures Served(nC, nR, ctr, rtc, healthy, needy + [c], used[..], ctrmap[..], rtcmap[..])
    ensures swapped == (|needy| < |AvailableSlots(nC, nR, ctr, rtc, healthy, nR)|)
  {
    hide Pairs, Planned, UsedUpTo, AvailableSlots, Served;
    ghost var avail := AvailableSlots(nC, nR, ctr, rtc, healthy, nR);
    ghost var u0, c0, r0 := used[..], ctrmap[..], rtcmap[..];
    ServedSizes(nC, nR, ctr, rtc, healthy, needy, u0, c0, r0);
    var newreprank := TakeSlot(nC, nR, ctr, rtc, healthy, used, cur, Min(|needy|, |avail|));
    swapped := false;
    if newreprank >= 0 {
      var oldcmprank := rtc[newreprank];
      ServeStep(nC, nR, ctr, rtc, healthy, needy, c, u0, used[..], c0, r0);
      ctrmap[c] := newreprank;
      rtcmap[newreprank] := c;
      ctrmap[oldcmprank] := ctr[c];
      if ctr[c] != NONE {
        rtcmap[ctr[c]] := oldcmprank;
      }
      assert ctrmap[..] == SwapCmp(ctr, rtc, c0, c, newreprank);
      assert rtcmap[..] == SwapRep(ctr, rtc, r0, c, newreprank);
      swapped := true;
    } else {
      StarveStep(nC, nR, ctr, rtc, healthy, needy, c, u0, c0, r0);
      SameUsed(nC, nR, ctr, rtc, healthy, needy + [c], u0, used[..], c0, r0);
    }
  }

  lemma ServedSizes(nC: int, nR: int, ctr: seq<int>, rtc: seq<int>, healthy: seq<bool>, needy: seq<int>,
                    used: seq<bool>, ctr1: seq<int>, rtc1: seq<int>)
    requires Ranks(nC, nR, ctr, rtc, healthy) && Served(nC, nR, ctr, rtc, healthy, needy, used, ctr1, rtc1)
    ensures |used| == nR && |ctr1| == nC && |rtc1| == nR
    ensures var avail := AvailableSlots(nC, nR, ctr, rtc, healthy, nR); UsedUpTo(used, avail, Min(|needy|, |avail|))
  {
  }

  lemma SameUsed(nC: int, nR: int, ctr: seq<int>, rtc: seq<int>, healthy: seq<bool>, needy: seq<int>,
                 used: seq<bool>, used': seq<bool>, ctr1: seq<int>, rtc1: seq<int>)
    requires Ranks(nC, nR, ctr, rtc, healthy) && Served(nC, nR, ctr, rtc, healthy, needy, used, ctr1, rtc1)
    requires |used'| == nR
    requires var avail := AvailableSlots(nC, nR, ctr, rtc, healthy, nR); UsedUpTo(used', avail, Min(|needy|, |avail|))
    ensures Served(nC, nR, ctr, rtc, healthy, needy, used', ctr1, rtc1)
  {
  }

  ghost function NeedyAfter(nC: int, nR: int, ctr: seq<int>, rtc: seq<int>, healthy: seq<bool>, needy: seq<int>, x: int)
    : seq<int>
    requires Ranks(nC, nR, ctr, rtc, healthy) && 0 <= x < nC + nR
  {
    needy + if Needy(nC, nR, ctr, rtc, healthy, x) then [RankOf(nC, rtc, x)] else []
  }

  /** One predicted rank, compute or replica. */
  method PlanEntry(nC: int, nR: int, ctr: seq<int>, rtc: seq<int>, healthy: seq<bool>, cur: int,
                   used: array<bool>, ctrmap: array<int>, rtcmap: array<int>, ghost needy: seq<int>)
    returns (swapped: bool)
    requires Ranks(nC, nR, ctr, rtc, healthy) && 0 <= cur < nC + nR && !healthy[cur]
    requires ctrmap != rtcmap && Served(nC, nR, ctr, rtc, healthy, needy, used[..], ctrmap[..], rtcmap[..])
    modifies used, ctrmap, rtcmap
    ensures Served(nC, nR, ctr, rtc, healthy, NeedyAfter(nC, nR, ctr, rtc, healthy, needy, cur),
                   used[..], ctrmap[..], rtcmap[..])
    ensures swapped ==
      (Needy(nC, nR, ctr, rtc, healthy, cur) && |needy| < |AvailableSlots(nC, nR, ctr, rtc, healthy, nR)|)
  {
    hide AvailableSlots, Served;
    swapped := false;
    assert needy + [] == needy;
    if cur < nC {
      var hasReplica := ctr[cur] != NONE;
      var replicaIsHealthy := false;
      if hasReplica { replicaIsHealthy := healthy[ctr[cur] + nC]; }
      if !hasReplica || !replicaIsHealthy {
        swapped := Reassign(nC, nR, ctr, rtc, healthy, cur, cur, used, ctrmap, rtcmap, needy);
      }
    } else {
      var cmprank := rtc[cur - nC];
      if !healthy[cmprank] {
        swapped := Reassign(nC, nR, ctr, rtc, healthy, cur, cmprank, used, ctrmap, rtcmap, needy);
      }
    }
  }

  lemma PlanIsServed(nC: int, nR: int, ctr: seq<int>, rtc: seq<int>, healthy: seq<bool>, needy: seq<int>,
                     used: seq<bool>, ctr1: seq<int>, rtc1: seq<int>)
    requires Ranks(nC, nR, ctr, rtc, healthy) && Served(nC, nR, ctr, rtc, healthy, needy, used, ctr1, rtc1)
    ensures var avail := AvailableSlots(nC, nR, ctr, rtc, healthy, nR); var m := Min(|needy|, |avail|);
      && Pairs(nC, nR, ctr, rtc, healthy, needy[..m], avail[..m])
      && Planned(nC, nR, ctr, rtc, needy[..m], avail[..m], ctr1, rtc1)
      && (Paired(nC, nR, ctr1, rtc1) <==> NoRepeats(needy[..m]))
  {
    hide Pairs, Planned, UsedUpTo, AvailableSlots;
    var avail := AvailableSlots(nC, nR, ctr, rtc, healthy, nR);
    var m := Min(|needy|, |avail|);
    RepeatBreaksPairs(nC, nR, ctr, rtc, healthy, needy[..m], avail[..m], ctr1, rtc1);
  }

  // ---- What a caller can check and rely on ----

  /** No entry is repeated and none appears together with its partner. */
  ghost predicate NoPartners(nC: int, nR: int, rtc: seq<int>, entries: seq<int>)
    requires 0 <= nC && |rtc| == nR && forall j :: 0 <= j < |entries| ==> 0 <= entries[j] < nC + nR
  {
    forall i, j :: 0 <= i < j < |entries| ==> RankOf(nC, rtc, entries[i]) != RankOf(nC, rtc, entries[j])
  }

  /** No two needy entries belong to the same rank. */
  ghost predicate NeedyOnce(nC: int, nR: int, ctr: seq<int>, rtc: seq<int>, healthy: seq<bool>, entries: seq<int>)
    requires Ranks(nC, nR, ctr, rtc, healthy) && forall j :: 0 <= j < |entries| ==> 0 <= entries[j] < nC + nR
  {
    forall i, j ::
      0 <= i < j < |entries|
      && Needy(nC, nR, ctr, rtc, healthy, entries[i]) && Needy(nC, nR, ctr, rtc, healthy, entries[j]) ==>
      RankOf(nC, rtc, entries[i]) != RankOf(nC, rtc, entries[j])
  }

  ghost predicate NeedyAt(nC: int, nR: int, ctr: seq<int>, rtc: seq<int>, healthy: seq<bool>, x: int, c: int)
    requires Ranks(nC, nR, ctr, rtc, healthy) && 0 <= x < nC + nR
  {
    Needy(nC, nR, ctr, rtc, healthy, x) && RankOf(nC, rtc, x) == c
  }

  /** The needy ranks are those of the needy entries. */
  lemma {:induction false} NeedyIn(nC: int, nR: int, ctr: seq<int>, rtc: seq<int>, healthy: seq<bool>,
                                   entries: seq<int>, c: int)
    requires Ranks(nC, nR, ctr, rtc, healthy) && forall j :: 0 <= j < |entries| ==> 0 <= entries[j] < nC + nR
    ensures c in NeedyRanks(nC, nR, ctr, rtc, healthy, entries)
       <==> exists j :: 0 <= j < |entries| && NeedyAt(nC, nR, ctr, rtc, healthy, entries[j], c)
  {
    hide Paired, Needy, RankOf;
    PairedAt(nC, nR, ctr, rtc, 0);
    if entries != [] {
      var k := |entries| - 1;
      var front := entries[..k];
      assert forall j :: 0 <= j < k ==> front[j] == entries[j];
      NeedyIn(nC, nR, ctr, rtc, healthy, front, c);
      var s := NeedyRanks(nC, nR, ctr, rtc, healthy, front);
      assert NeedyRanks(nC, nR, ctr, rtc, healthy, entries)
          == s + if Needy(nC, nR, ctr, rtc, healthy, entries[k]) then [RankOf(nC, rtc, entries[k])] else [];
      if j :| 0 <= j < |entries| && NeedyAt(nC, nR, ctr, rtc, healthy, entries[j], c) {
        if j < k { assert NeedyAt(nC, nR, ctr, rtc, healthy, front[j], c); }
      }
    }
  }

  lemma DistinctAppend(s: seq<int>, x: int)
    ensures NoRepeats(s + [x]) <==> NoRepeats(s) && x !in s
  {
    if NoRepeats(s + [x]) {
      assert forall i :: 0 <= i < |s| ==> (s + [x])[i] == s[i];
      assert (s + [x])[|s|] == x;
    }
  }

  /** The needy ranks are distinct exactly when no two needy entries belong to the same rank. */
  lemma {:induction false} DistinctIffNeedyOnce(nC: int, nR: int, ctr: seq<int>, rtc: seq<int>, healthy: seq<bool>,
                                                entries: seq<int>)
    requires Ranks(nC, nR, ctr, rtc, healthy) && forall j :: 0 <= j < |entries| ==> 0 <= entries[j] < nC + nR
    ensures NoRepeats(NeedyRanks(nC, nR, ctr, rtc, healthy, entries)) <==> NeedyOnce(nC, nR, ctr, rtc, healthy, entries)
  {
    hide Paired, Needy, RankOf, NoRepeats;
    PairedAt(nC, nR, ctr, rtc, 0);
    if entries == [] {
      assert NoRepeats<int>([]) by { NothingRepeats(); }
    } else {
      var k := |entries| - 1;
      var front, x := entries[..k], entries[k];
      var s := NeedyRanks(nC, nR, ctr, rtc, healthy, front);
      DistinctIffNeedyOnce(nC, nR, ctr, rtc, healthy, front);
      NeedyIn(nC, nR, ctr, rtc, healthy, front, RankOf(nC, rtc, x));
      DistinctAppend(s, RankOf(nC, rtc, x));
      OneMoreEntry(nC, nR, ctr, rtc, healthy, entries);
      assert s + [] == s;
    }
  }

  lemma NothingRepeats()
    ensures NoRepeats<int>([])
  {
  }

  lemma OneMoreEntry(nC: int, nR: int, ctr: seq<int>, rtc: seq<int>, healthy: seq<bool>, entries: seq<int>)
    requires Ranks(nC, nR, ctr, rtc, healthy) && entries != []
    requires forall j :: 0 <= j < |entries| ==> 0 <= entries[j] < nC + nR
    ensures var k := |entries| - 1; var front, x := entries[..k], entries[k];
      NeedyOnce(nC, nR, ctr, rtc, healthy, entries) <==>
        && NeedyOnce(nC, nR, ctr, rtc, healthy, front)
        && (Needy(nC, nR, ctr, rtc, healthy, x) ==>
              !exists j :: 0 <= j < |front| && NeedyAt(nC, nR, ctr, rtc, healthy, front[j], RankOf(nC, rtc, x)))
  {
    hide Paired, Needy, RankOf;
    var k := |entries| - 1;
    var front := entries[..k];
    assert forall j :: 0 <= j < k ==> front[j] == entries[j];
  }

  /** The length of the longest part of the notice, from its start, whose needy entries all find a slot. */
  ghost function Reach(nC: int, nR: int, ctr: seq<int>, rtc: seq<int>, healthy: seq<bool>, entries: seq<int>,
                       slots: int)
    : (k: int)
    requires Ranks(nC, nR, ctr, rtc, healthy) && forall j :: 0 <= j < |entries| ==> 0 <= entries[j] < nC + nR
    ensures 0 <= k <= |entries|
  {
    if entries == [] || |NeedyRanks(nC, nR, ctr, rtc, healthy, entries)| <= slots then |entries|
    else Reach(nC, nR, ctr, rtc, healthy, entries[..|entries| - 1], slots)
  }

  /** The ranks served are the needy ranks of the entries within reach. */
  lemma {:induction false} ReachServes(nC: int, nR: int, ctr: seq<int>, rtc: seq<int>, healthy: seq<bool>,
                                       entries: seq<int>, slots: int)
    requires Ranks(nC, nR, ctr, rtc, healthy) && forall j :: 0 <= j < |entries| ==> 0 <= entries[j] < nC + nR
    requires 0 <= slots
    ensures var needy := NeedyRanks(nC, nR, ctr, rtc, healthy, entries);
      var k := Reach(nC, nR, ctr, rtc, healthy, entries, slots);
      NeedyRanks(nC, nR, ctr, rtc, healthy, entries[..k]) == needy[..Min(|needy|, slots)]
  {
    hide Paired, Needy, RankOf;
    var needy := NeedyRanks(nC, nR, ctr, rtc, healthy, entries);
    if entries == [] || |needy| <= slots {
      assert entries[..|entries|] == entries && needy[..|needy|] == needy;
    } else {
      var front := entries[..|entries| - 1];
      var s := NeedyRanks(nC, nR, ctr, rtc, healthy, front);
      ReachServes(nC, nR, ctr, rtc, healthy, front, slots);
      var k := Reach(nC, nR, ctr, rtc, healthy, front, slots);
      assert front[..k] == entries[..k];
      assert s == needy[..|s|] && |needy| <= |s| + 1;
      assert s[..Min(|s|, slots)] == needy[..slots];
    }
  }

  /** No rank is served twice exactly when no two needy entries within reach belong to the same rank. */
  lemma ServedOnceIff(nC: int, nR: int, ctr: seq<int>, rtc: seq<int>, healthy: seq<bool>, entries: seq<int>, slots: int)
    requires Ranks(nC, nR, ctr, rtc, healthy) && forall j :: 0 <= j < |entries| ==> 0 <= entries[j] < nC + nR
    requires 0 <= slots
    ensures var needy := NeedyRanks(nC, nR, ctr, rtc, healthy, entries);
      NoRepeats(needy[..Min(|needy|, slots)]) <==>
        NeedyOnce(nC, nR, ctr, rtc, healthy, entries[..Reach(nC, nR, ctr, rtc, healthy, entries, slots)])
  {
    hide Paired, Needy, RankOf, NoRepeats, NeedyRanks, Reach;
    ReachServes(nC, nR, ctr, rtc, healthy, entries, slots);
    DistinctIffNeedyOnce(nC, nR, ctr, rtc, healthy, entries[..Reach(nC, nR, ctr, rtc, healthy, entries, slots)]);
  }

  lemma NoPartnersMeansDistinct(nC: int, nR: int, ctr: seq<int>, rtc: seq<int>, healthy: seq<bool>, entries: seq<int>)
    requires Ranks(nC, nR, ctr, rtc, healthy) && Entries(nC, nR, healthy, entries) && NoPartners(nC, nR, rtc, entries)
    ensures NoRepeats(NeedyRanks(nC, nR, ctr, rtc, healthy, entries))
  {
    hide Paired, Needy, RankOf, NoRepeats, NeedyRanks;
    DistinctIffNeedyOnce(nC, nR, ctr, rtc, healthy, entries);
  }

  /** In a consistent plan every served rank ends up with its slot, whose replica is not predicted to
      fail and was taken from a rank not predicted to fail; that rank gets what the served rank had. */
  lemma ServedRanksAreCovered(nC: int, nR: int, ctr: seq<int>, rtc: seq<int>, healthy: seq<bool>, cs: seq<int>,
                              ks: seq<int>, ctr1: seq<int>, rtc1: seq<int>, j: int)
    requires Pairs(nC, nR, ctr, rtc, healthy, cs, ks) && Planned(nC, nR, ctr, rtc, cs, ks, ctr1, rtc1)
    requires NoRepeats(cs) && 0 <= j < |cs|
    ensures 0 <= cs[j] < nC && ctr1[cs[j]] == ks[j] && healthy[nC + ks[j]] && healthy[rtc[ks[j]]]
    ensures ctr1[rtc[ks[j]]] == ctr[cs[j]]
  {
    assert Paired(nC, nR, ctr1, rtc1) && rtc1[ks[j]] == cs[j];
    assert Available(nC, rtc, healthy, ks[j]);
  }

  // ---- What the plan is for: no predicted rank is left without a healthy process ----

  /** Neither rank c nor the replica the map gives it is healthy. */
  ghost predicate InNeed(nC: int, nR: int, m: seq<int>, healthy: seq<bool>, c: int)
    requires 0 <= c < nC == |m| && 0 <= nR && |healthy| == nC + nR
  {
    !healthy[c] && !(0 <= m[c] < nR && healthy[nC + m[c]])
  }

  /** Predicted process x is rank c or its replica. */
  ghost predicate Concerns(nC: int, rtc: seq<int>, x: int, c: int) {
    0 <= c < nC && (x == c || (nC <= x < nC + |rtc| && rtc[x - nC] == c))
  }

  ghost predicate Listed(nC: int, rtc: seq<int>, entries: seq<int>, c: int) {
    exists j :: 0 <= j < |entries| && Concerns(nC, rtc, entries[j], c)
  }

  ghost predicate ListedOnce(nC: int, rtc: seq<int>, entries: seq<int>) {
    forall i, j, c :: 0 <= i < j < |entries| && Concerns(nC, rtc, entries[i], c) ==> !Concerns(nC, rtc, entries[j], c)
  }

  ghost function RanksInNeed(nC: int, nR: int, ctr: seq<int>, rtc: seq<int>, healthy: seq<bool>, entries: seq<int>)
    : set<int>
    requires nC == |ctr| && 0 <= nR && |healthy| == nC + nR
  {
    set c | 0 <= c < nC && Listed(nC, rtc, entries, c) && InNeed(nC, nR, ctr, healthy, c)
  }

  /** The slots whose replica and rank are both healthy. */
  ghost function FreeSlots(nC: int, nR: int, rtc: seq<int>, healthy: seq<bool>): set<int>
    requires 0 <= nC && nR == |rtc| && |healthy| == nC + nR && forall r :: 0 <= r < nR ==> 0 <= rtc[r] < nC
  {
    set r | 0 <= r < nR && healthy[nC + r] && healthy[rtc[r]]
  }

  /** No listed rank is left in need under the new map exactly when there are as many free slots as listed ranks in
      need. */
  ghost predicate ProtectsIff(nC: int, nR: int, ctr: seq<int>, rtc: seq<int>, healthy: seq<bool>, entries: seq<int>,
                              ctr1: seq<int>)
    requires Ranks(nC, nR, ctr, rtc, healthy) && |ctr1| == nC
  {
    (forall c :: Listed(nC, rtc, entries, c) ==> !InNeed(nC, nR, ctr1, healthy, c)) <==>
      |RanksInNeed(nC, nR, ctr, rtc, healthy, entries)| <= |FreeSlots(nC, nR, rtc, healthy)|
  }

  lemma FreeAreAvailable(nC: int, nR: int, ctr: seq<int>, rtc: seq<int>, healthy: seq<bool>)
    requires Ranks(nC, nR, ctr, rtc, healthy)
    ensures |FreeSlots(nC, nR, rtc, healthy)| == |AvailableSlots(nC, nR, ctr, rtc, healthy, nR)|
  {
    var avail := AvailableSlots(nC, nR, ctr, rtc, healthy, nR);
    hide AvailableSlots;
    assert Elements(avail) == FreeSlots(nC, nR, rtc, healthy) by {
      forall r | 0 <= r < nR
        ensures r in avail <==> healthy[nC + r] && healthy[rtc[r]]
      {
        if r in avail { assert Available(nC, rtc, healthy, r); }
      }
    }
    CountElements(avail);
  }

  /** An unhealthy entry is needy exactly when its rank is in need. */
  lemma NeedyMeansInNeed(nC: int, nR: int, ctr: seq<int>, rtc: seq<int>, healthy: seq<bool>, x: int, c: int)
    requires Ranks(nC, nR, ctr, rtc, healthy) && 0 <= x < nC + nR && !healthy[x] && 0 <= c < nC
    ensures Concerns(nC, rtc, x, c) <==> RankOf(nC, rtc, x) == c
    ensures NeedyAt(nC, nR, ctr, rtc, healthy, x, c) <==> Concerns(nC, rtc, x, c) && InNeed(nC, nR, ctr, healthy, c)
  {
  }

  lemma NeedyAreInNeed(nC: int, nR: int, ctr: seq<int>, rtc: seq<int>, healthy: seq<bool>, entries: seq<int>)
    requires Ranks(nC, nR, ctr, rtc, healthy) && Entries(nC, nR, healthy, entries)
    ensures Elements(NeedyRanks(nC, nR, ctr, rtc, healthy, entries))
         == RanksInNeed(nC, nR, ctr, rtc, healthy, entries)
  {
    var needy, need := NeedyRanks(nC, nR, ctr, rtc, healthy, entries), RanksInNeed(nC, nR, ctr, rtc, healthy, entries);
    hide NeedyRanks, Paired, Needy, RankOf, Concerns, InNeed, NeedyAt;
    forall c | 0 <= c < nC
      ensures c in needy <==> c in need
    {
      NeedyIn(nC, nR, ctr, rtc, healthy, entries, c);
      forall j | 0 <= j < |entries|
        ensures NeedyAt(nC, nR, ctr, rtc, healthy, entries[j], c)
           <==> Concerns(nC, rtc, entries[j], c) && InNeed(nC, nR, ctr, healthy, c)
      {
        NeedyMeansInNeed(nC, nR, ctr, rtc, healthy, entries[j], c);
      }
    }
  }

  lemma ListedOnceIsNoPartners(nC: int, nR: int, ctr: seq<int>, rtc: seq<int>, healthy: seq<bool>, entries: seq<int>)
    requires Ranks(nC, nR, ctr, rtc, healthy) && Entries(nC, nR, healthy, entries) && ListedOnce(nC, rtc, entries)
    ensures NoPartners(nC, nR, rtc, entries)
  {
    forall i, j | 0 <= i < j < |entries|
      ensures RankOf(nC, rtc, entries[i]) != RankOf(nC, rtc, entries[j])
    {
      assert Concerns(nC, rtc, entries[i], RankOf(nC, rtc, entries[i]));
      assert Concerns(nC, rtc, entries[j], RankOf(nC, rtc, entries[j]));
    }
  }

  lemma PairsSizes(nC: int, nR: int, ctr: seq<int>, rtc: seq<int>, healthy: seq<bool>, cs: seq<int>, ks: seq<int>)
    requires Pairs(nC, nR, ctr, rtc, healthy, cs, ks)
    ensures 0 <= nC == |ctr| && nR == |rtc| && |healthy| == nC + nR && |cs| == |ks|
    ensures forall j :: 0 <= j < |ks| ==> 0 <= ks[j] < nR && 0 <= rtc[ks[j]] < nC
  {
  }

  lemma UnservedKeeps(nC: int, nR: int, ctr: seq<int>, rtc: seq<int>, healthy: seq<bool>, cs: seq<int>,
                      ks: seq<int>, ctr1: seq<int>, rtc1: seq<int>, c: int)
    requires Pairs(nC, nR, ctr, rtc, healthy, cs, ks) && Planned(nC, nR, ctr, rtc, cs, ks, ctr1, rtc1)
    requires 0 <= c < nC && !healthy[c] && c !in cs
    ensures |ctr1| == nC && ctr1[c] == ctr[c]
  {
    assert !Touched(rtc, cs, ks, c);
  }

  /** A rank that is served is no longer in need; an unhealthy one that is not served keeps what it had. */
  lemma ServedIffOutOfNeed(nC: int, nR: int, ctr: seq<int>, rtc: seq<int>, healthy: seq<bool>, cs: seq<int>,
                           ks: seq<int>, ctr1: seq<int>, rtc1: seq<int>, c: int)
    requires Pairs(nC, nR, ctr, rtc, healthy, cs, ks) && Planned(nC, nR, ctr, rtc, cs, ks, ctr1, rtc1) && NoRepeats(cs)
    requires 0 <= c < nC
    ensures InNeed(nC, nR, ctr1, healthy, c) <==> InNeed(nC, nR, ctr, healthy, c) && c !in cs
  {
    hide Pairs, Planned, NoRepeats, Ranks;
    PlannedSizes(nC, nR, ctr, rtc, cs, ks, ctr1, rtc1);
    PairsSizes(nC, nR, ctr, rtc, healthy, cs, ks);
    if c in cs {
      var j :| 0 <= j < |cs| && cs[j] == c;
      ServedRanksAreCovered(nC, nR, ctr, rtc, healthy, cs, ks, ctr1, rtc1, j);
    } else if !healthy[c] {
      UnservedKeeps(nC, nR, ctr, rtc, healthy, cs, ks, ctr1, rtc1, c);
    }
  }

  /** With no rank listed twice, the plan leaves no listed rank in need exactly when there are as many free slots as
      listed ranks in need. */
  lemma PlanProtectsIff(nC: int, nR: int, ctr: seq<int>, rtc: seq<int>, healthy: seq<bool>, entries: seq<int>,
                        ctr1: seq<int>, rtc1: seq<int>)
    requires Ranks(nC, nR, ctr, rtc, healthy) && Entries(nC, nR, healthy, entries) && ListedOnce(nC, rtc, entries)
    requires var needy := NeedyRanks(nC, nR, ctr, rtc, healthy, entries);
      var avail := AvailableSlots(nC, nR, ctr, rtc, healthy, nR);
      var m := Min(|needy|, |avail|);
      && Pairs(nC, nR, ctr, rtc, healthy, needy[..m], avail[..m])
      && Planned(nC, nR, ctr, rtc, needy[..m], avail[..m], ctr1, rtc1)
    ensures |ctr1| == nC && ProtectsIff(nC, nR, ctr, rtc, healthy, entries, ctr1)
  {
    var needy, avail := NeedyRanks(nC, nR, ctr, rtc, healthy, entries), AvailableSlots(nC, nR, ctr, rtc, healthy, nR);
    var need := RanksInNeed(nC, nR, ctr, rtc, healthy, entries);
    var m := Min(|needy|, |avail|);
    var cs, ks := needy[..m], avail[..m];
    hide NeedyRanks, AvailableSlots, Pairs, Planned, Needy, RankOf, Concerns, InNeed, FreeSlots;
    ListedOnceIsNoPartners(nC, nR, ctr, rtc, healthy, entries);
    NoPartnersMeansDistinct(nC, nR, ctr, rtc, healthy, entries);
    CountElements(needy);
    NeedyAreInNeed(nC, nR, ctr, rtc, healthy, entries);
    FreeAreAvailable(nC, nR, ctr, rtc, healthy);
    PlannedSizes(nC, nR, ctr, rtc, cs, ks, ctr1, rtc1);
    assert NoRepeats(cs);
    forall c | 0 <= c < nC
      ensures InNeed(nC, nR, ctr1, healthy, c) <==> InNeed(nC, nR, ctr, healthy, c) && c !in cs
    {
      ServedIffOutOfNeed(nC, nR, ctr, rtc, healthy, cs, ks, ctr1, rtc1, c);
    }
    if |needy| <= |avail| {
      assert cs == needy;
      forall c | Listed(nC, rtc, entries, c)
        ensures !InNeed(nC, nR, ctr1, healthy, c)
      {
        ListedIsRank(nC, rtc, entries, c);
        assert InNeed(nC, nR, ctr, healthy, c) ==> c in need && c in Elements(needy);
      }
    } else {
      var c := needy[m];
      assert c in Elements(needy) && c !in cs;
      assert Listed(nC, rtc, entries, c) && InNeed(nC, nR, ctr1, healthy, c);
    }
  }

  lemma ListedIsRank(nC: int, rtc: seq<int>, entries: seq<int>, c: int)
    requires Listed(nC, rtc, entries, c)
    ensures 0 <= c < nC
  {
  }

  lemma PlanFacts(nC: int, nR: int, ctr: seq<int>, rtc: seq<int>, healthy: seq<bool>, entries: seq<int>,
                  ctr1: seq<int>, rtc1: seq<int>)
    requires Ranks(nC, nR, ctr, rtc, healthy) && Entries(nC, nR, healthy, entries)
    requires var needy := NeedyRanks(nC, nR, ctr, rtc, healthy, entries);
      var avail := AvailableSlots(nC, nR, ctr, rtc, healthy, nR);
      var m := Min(|needy|, |avail|);
      && Pairs(nC, nR, ctr, rtc, healthy, needy[..m], avail[..m])
      && Planned(nC, nR, ctr, rtc, needy[..m], avail[..m], ctr1, rtc1)
    ensures |ctr1| == nC
    ensures var needy := NeedyRanks(nC, nR, ctr, rtc, healthy, entries);
      var m := Min(|needy|, |AvailableSlots(nC, nR, ctr, rtc, healthy, nR)|);
      m > 0 <==> RanksInNeed(nC, nR, ctr, rtc, healthy, entries) != {} && FreeSlots(nC, nR, rtc, healthy) != {}
    ensures ListedOnce(nC, rtc, entries) ==> ProtectsIff(nC, nR, ctr, rtc, healthy, entries, ctr1)
  {
    hide NeedyRanks, AvailableSlots, Pairs, Planned, Needy, RankOf, FreeSlots, RanksInNeed, ListedOnce, ProtectsIff;
    var needy, avail := NeedyRanks(nC, nR, ctr, rtc, healthy, entries), AvailableSlots(nC, nR, ctr, rtc, healthy, nR);
    var m := Min(|needy|, |avail|);
    PlannedSizes(nC, nR, ctr, rtc, needy[..m], avail[..m], ctr1, rtc1);
    NeedyAreInNeed(nC, nR, ctr, rtc, healthy, entries);
    if needy != [] { assert needy[0] in Elements(needy); }
    FreeAreAvailable(nC, nR, ctr, rtc, healthy);
    if ListedOnce(nC, rtc, entries) { PlanProtectsIff(nC, nR, ctr, rtc, healthy, entries, ctr1, rtc1); }
  }

  /** The loop over the entries. */
  method RunPlan(nC: int, nR: int, ctr: seq<int>, rtc: seq<int>, healthy: seq<bool>, entries: seq<int>)
    returns (ctrmap: array<int>, rtcmap: array<int>, swap: bool, ghost u: seq<bool>)
    requires Ranks(nC, nR, ctr, rtc, healthy) && Entries(nC, nR, healthy, entries)
    ensures Served(nC, nR, ctr, rtc, healthy, NeedyRanks(nC, nR, ctr, rtc, healthy, entries), u, ctrmap[..], rtcmap[..])
    ensures swap ==
      (Min(|NeedyRanks(nC, nR, ctr, rtc, healthy, entries)|, |AvailableSlots(nC, nR, ctr, rtc, healthy, nR)|) > 0)
    ensures fresh(ctrmap) && fresh(rtcmap) && ctrmap.Length == nC
  {
    hide Pairs, Planned, UsedUpTo, AvailableSlots, Served, Needy, RankOf;
    ctrmap := new int[nC](i requires 0 <= i < nC => ctr[i]);
    rtcmap := new int[nR](i requires 0 <= i < nR => rtc[i]);
    var used := new bool[nR](i => false);
    assert ctrmap[..] == ctr && rtcmap[..] == rtc;
    swap := false;
    NothingServed(nC, nR, ctr, rtc, healthy, used[..]);
    assert entries[..0] == [];
    ghost var avail := AvailableSlots(nC, nR, ctr, rtc, healthy, nR);
    for p := 0 to |entries|
      invariant Served(nC, nR, ctr, rtc, healthy, NeedyRanks(nC, nR, ctr, rtc, healthy, entries[..p]),
                       used[..], ctrmap[..], rtcmap[..])
      invariant swap == (Min(|NeedyRanks(nC, nR, ctr, rtc, healthy, entries[..p])|, |avail|) > 0)
    {
      assert entries[..p + 1][..p] == entries[..p];
      var s := PlanEntry(nC, nR, ctr, rtc, healthy, entries[p], used, ctrmap, rtcmap,
                         NeedyRanks(nC, nR, ctr, rtc, healthy, entries[..p]));
      swap := swap || s;
    }
    assert entries[..|entries|] == entries;
    u := used[..];
  }

  /** The plan for a node: entries are the predicted ranks, all of them already recorded as unhealthy. */
  method PlanSwap(nC: int, nR: int, ctr: seq<int>, rtc: seq<int>, healthy: seq<bool>, entries: seq<int>)
    returns (ctrmap: array<int>, rtcmap: array<int>, swap: bool)
    requires Ranks(nC, nR, ctr, rtc, healthy) && Entries(nC, nR, healthy, entries)
    ensures var needy := NeedyRanks(nC, nR, ctr, rtc, healthy, entries);
      var avail := AvailableSlots(nC, nR, ctr, rtc, healthy, nR);
      var m := Min(|needy|, |avail|);
      && Pairs(nC, nR, ctr, rtc, healthy, needy[..m], avail[..m])
      && Planned(nC, nR, ctr, rtc, needy[..m], avail[..m], ctrmap[..], rtcmap[..])
      && swap == (m > 0)
      && (Paired(nC, nR, ctrmap[..], rtcmap[..]) <==> NoRepeats(needy[..m]))
      && (NoRepeats(needy[..m]) <==>
            NeedyOnce(nC, nR, ctr, rtc, healthy, entries[..Reach(nC, nR, ctr, rtc, healthy, entries, |avail|)]))
    // what it is for: with no rank listed twice, no listed rank is left in need exactly when the slots suffice
    ensures var need := RanksInNeed(nC, nR, ctr, rtc, healthy, entries);
      var free := FreeSlots(nC, nR, rtc, healthy);
      && ctrmap.Length == nC && (swap <==> need != {} && free != {})
      && (ListedOnce(nC, rtc, entries) ==> ProtectsIff(nC, nR, ctr, rtc, healthy, entries, ctrmap[..]))
  {
    hide Pairs, Planned, UsedUpTo, AvailableSlots, Served, Needy, RankOf, NeedyRanks, NoRepeats, NeedyOnce, Reach,
      RanksInNeed, FreeSlots, ProtectsIff;
    ghost var used;
    ctrmap, rtcmap, swap, used := RunPlan(nC, nR, ctr, rtc, healthy, entries);
    ghost var needy := NeedyRanks(nC, nR, ctr, rtc, healthy, entries);
    ghost var avail := AvailableSlots(nC, nR, ctr, rtc, healthy, nR);
    PlanIsServed(nC, nR, ctr, rtc, healthy, needy, used, ctrmap[..], rtcmap[..]);
    ServedOnceIff(nC, nR, ctr, rtc, healthy, entries, |avail|);
    PlanFacts(nC, nR, ctr, rtc, healthy, entries, ctrmap[..], rtcmap[..]);
  }

  /** A rank and its replica listed both within reach of the slots are served twice. */
  lemma PartnersServedTwice(nC: int, nR: int, ctr: seq<int>, rtc: seq<int>, healthy: seq<bool>, entries: seq<int>,
                            slots: int, i: int, j: int)
    requires Ranks(nC, nR, ctr, rtc, healthy) && Entries(nC, nR, healthy, entries) && 0 <= slots
    requires var k := Reach(nC, nR, ctr, rtc, healthy, entries, slots); 0 <= i < k && 0 <= j < k
    requires 0 <= entries[i] < nC <= entries[j] && ctr[entries[i]] == entries[j] - nC
    ensures var needy := NeedyRanks(nC, nR, ctr, rtc, healthy, entries); !NoRepeats(needy[..Min(|needy|, slots)])
  {
    PartnersNeedy(nC, nR, ctr, rtc, healthy, entries[i], entries[j] - nC);
    hide Paired, Needy, RankOf, NoRepeats, NeedyRanks, Reach;
    var near := entries[..Reach(nC, nR, ctr, rtc, healthy, entries, slots)];
    assert near[i] == entries[i] && near[j] == entries[j];
    ServedOnceIff(nC, nR, ctr, rtc, healthy, entries, slots);
  }

  lemma PartnersNeedy(nC: int, nR: int, ctr: seq<int>, rtc: seq<int>, healthy: seq<bool>, c: int, r: int)
    requires Ranks(nC, nR, ctr, rtc, healthy) && 0 <= c < nC && 0 <= r < nR && ctr[c] == r && !healthy[c]
    requires !healthy[nC + r]
    ensures Needy(nC, nR, ctr, rtc, healthy, c) && Needy(nC, nR, ctr, rtc, healthy, nC + r)
    ensures RankOf(nC, rtc, c) == RankOf(nC, rtc, nC + r) == c
  {
  }

  lemma NeedyCount(nC: int, nR: int, ctr: seq<int>, rtc: seq<int>, healthy: seq<bool>, entries: seq<int>, x: int)
    requires Ranks(nC, nR, ctr, rtc, healthy) && 0 <= x < nC + nR
    requires forall j :: 0 <= j < |entries| ==> 0 <= entries[j] < nC + nR
    ensures |NeedyRanks(nC, nR, ctr, rtc, healthy, entries + [x])|
         == |NeedyRanks(nC, nR, ctr, rtc, healthy, entries)| + if Needy(nC, nR, ctr, rtc, healthy, x) then 1 else 0
    ensures NeedyRanks(nC, nR, ctr, rtc, healthy, []) == []
  {
    assert (entries + [x])[..|entries|] == entries;
  }

  lemma AvailableCount(nC: int, nR: int, ctr: seq<int>, rtc: seq<int>, healthy: seq<bool>, k: int)
    requires Ranks(nC, nR, ctr, rtc, healthy) && 0 <= k < nR
    ensures |AvailableSlots(nC, nR, ctr, rtc, healthy, k + 1)|
         == |AvailableSlots(nC, nR, ctr, rtc, healthy, k)| + if Available(nC, rtc, healthy, k) then 1 else 0
    ensures |AvailableSlots(nC, nR, ctr, rtc, healthy, 0)| == 0
  {
  }

  const THREE: seq<int> := [0, 1, 2]
  const FIRST_PAIR_FAILING: seq<bool> := [false, true, true, false, true, true]

  lemma ExampleFacts()
    ensures Ranks(3, 3, THREE, THREE, FIRST_PAIR_FAILING) && Entries(3, 3, FIRST_PAIR_FAILING, [0] + [3])
    ensures Needy(3, 3, THREE, THREE, FIRST_PAIR_FAILING, 0) && Needy(3, 3, THREE, THREE, FIRST_PAIR_FAILING, 3)
    ensures !Available(3, THREE, FIRST_PAIR_FAILING, 0) && Available(3, THREE, FIRST_PAIR_FAILING, 1)
    ensures Available(3, THREE, FIRST_PAIR_FAILING, 2)
  {
  }

  lemma TwoNeedy(ctr: seq<int>, rtc: seq<int>, healthy: seq<bool>)
    requires Ranks(3, 3, ctr, rtc, healthy) && Needy(3, 3, ctr, rtc, healthy, 0) && Needy(3, 3, ctr, rtc, healthy, 3)
    ensures |NeedyRanks(3, 3, ctr, rtc, healthy, [0] + [3])| == 2
  {
    hide NeedyRanks, Paired, Needy;
    NeedyCount(3, 3, ctr, rtc, healthy, [], 0);
    assert [] + [0] == [0];
    NeedyCount(3, 3, ctr, rtc, healthy, [0], 3);
  }

  lemma TwoSlots(ctr: seq<int>, rtc: seq<int>, healthy: seq<bool>)
    requires Ranks(3, 3, ctr, rtc, healthy)
    requires !Available(3, rtc, healthy, 0) && Available(3, rtc, healthy, 1) && Available(3, rtc, healthy, 2)
    ensures |AvailableSlots(3, 3, ctr, rtc, healthy, 3)| == 2
  {
    hide AvailableSlots, Paired, Available;
    AvailableCount(3, 3, ctr, rtc, healthy, 0);
    AvailableCount(3, 3, ctr, rtc, healthy, 1);
    AvailableCount(3, 3, ctr, rtc, healthy, 2);
  }

  const TWO: seq<int> := [0, 1]
  const FIRST_OF_TWO_FAILING: seq<bool> := [false, true, false, true]

  lemma OneSlot()
    ensures Ranks(2, 2, TWO, TWO, FIRST_OF_TWO_FAILING) && Entries(2, 2, FIRST_OF_TWO_FAILING, [0, 2])
    ensures |AvailableSlots(2, 2, TWO, TWO, FIRST_OF_TWO_FAILING, 2)| == 1
    ensures !NeedyOnce(2, 2, TWO, TWO, FIRST_OF_TWO_FAILING, [0, 2])
  {
    AvailableCount(2, 2, TWO, TWO, FIRST_OF_TWO_FAILING, 0);
    AvailableCount(2, 2, TWO, TWO, FIRST_OF_TWO_FAILING, 1);
    PartnersNeedy(2, 2, TWO, TWO, FIRST_OF_TWO_FAILING, 0, 0);
    var entries := [0, 2];
    assert entries[0] == 0 && entries[1] == 2;
  }

  /** Two replicated ranks, the first predicted together with its replica, one slot available: only one of the two
      entries is served, and the plan's maps are inverse although the same rank is listed twice. */
  method OneSlotKeepsThePlan() returns (ctrmap: array<int>, rtcmap: array<int>)
    ensures Paired(2, 2, ctrmap[..], rtcmap[..]) && !NeedyOnce(2, 2, TWO, TWO, FIRST_OF_TWO_FAILING, [0, 2])
  {
    OneSlot();
    var swap;
    hide NeedyRanks, AvailableSlots, Paired, Planned, Pairs, Reach, NeedyOnce;
    ctrmap, rtcmap, swap := PlanSwap(2, 2, TWO, TWO, FIRST_OF_TWO_FAILING, [0, 2]);
    ghost var needy := NeedyRanks(2, 2, TWO, TWO, FIRST_OF_TWO_FAILING, [0, 2]);
    assert NoRepeats(needy[..Min(|needy|, 1)]);
  }

  /** Three replicated ranks, the first predicted together with its replica, two slots available: the plan's maps
      are not inverse. */
  method PartnersBreakThePlan() returns (ctrmap: array<int>, rtcmap: array<int>)
    ensures !Paired(3, 3, ctrmap[..], rtcmap[..])
  {
    ExampleFacts();
    TwoNeedy(THREE, THREE, FIRST_PAIR_FAILING);
    TwoSlots(THREE, THREE, FIRST_PAIR_FAILING);
    PartnersServedTwice(3, 3, THREE, THREE, FIRST_PAIR_FAILING, [0] + [3], 2, 0, 1);
    var swap;
    hide NeedyRanks, AvailableSlots, NoRepeats, Paired, Planned, Pairs;
    ctrmap, rtcmap, swap := PlanSwap(3, 3, THREE, THREE, FIRST_PAIR_FAILING, [0] + [3]);
    ghost var needy := NeedyRanks(3, 3, THREE, THREE, FIRST_PAIR_FAILING, [0] + [3]);
    assert needy[..2] == needy;
  }
}
