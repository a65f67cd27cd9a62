/** Rounds of log pruning over all processes.  Between rounds the application appends and completes
    records; a round exchanges receive ids, marks and prunes.  The point of the protocol: once a
    receipt is forgotten, no copy of its sender can send the message again. */
module PruneRounds {
  import opened FailureRemap
  import opened MessageLog

  datatype Topo = Topo(nC: int, nR: int, ctr: seq<int>, rtc: seq<int>)

  /** `settled`: (destination, id) of every send this process ever marked and dropped.
      `forgotten`: (source, id) of every receive it dropped. */
  datatype Proc = Proc(log: seq<Rec>, settled: set<(int, int)>, forgotten: set<(int, int)>)

  ghost predicate Fits(w: Topo, sys: seq<Proc>) {
    && Paired(w.nC, w.nR, w.ctr, w.rtc) && |sys| == w.nC + w.nR
    && forall p :: 0 <= p < |sys| ==> LogOk(w.nC, sys[p].log)
  }

  /** The compute rank process p is a copy of. */
  ghost function Logical(w: Topo, p: int): int
    requires Paired(w.nC, w.nR, w.ctr, w.rtc) && 0 <= p < w.nC + w.nR
  {
    if p < w.nC then p else w.rtc[p - w.nC]
  }

  lemma CopyIsLogical(w: Topo, p: int, c: int)
    requires Paired(w.nC, w.nR, w.ctr, w.rtc) && 0 <= p < w.nC + w.nR && 0 <= c < w.nC
    ensures CopyOf(w.nC, w.ctr, p, c) <==> Logical(w, p) == c
  {
  }

  // ---- One round, as the composition of its exchanges ----

  /** What the alltoallv of MPI-3.1 section 5.8 delivers to q: segment p is what p packed for q. */
  ghost function Incoming(w: Topo, sys: seq<Proc>, q: int): seq<seq<int>>
    requires Fits(w, sys)
  {
    seq(w.nC + w.nR, p requires 0 <= p < w.nC + w.nR => Segment(w.nC, w.ctr, sys[p].log, q))
  }

  ghost function MatchedAt(w: Topo, sys: seq<Proc>, q: int): (seq<Rec>, seq<seq<int>>)
    requires Fits(w, sys) && 0 <= q < |sys|
  {
    Matched(w.nC, w.nR, w.ctr, w.rtc, sys[q].log, Incoming(w, sys, q), |sys[q].log|)
  }

  /** The second alltoallv returns every segment to the process that packed it. */
  ghost function Back(w: Topo, sys: seq<Proc>, p: int): seq<seq<int>>
    requires Fits(w, sys) && 0 <= p < |sys|
  {
    seq(w.nC + w.nR, q requires 0 <= q < w.nC + w.nR => MatchedAt(w, sys, q).1[p])
  }

  lemma MatchedLogOk(w: Topo, sys: seq<Proc>, q: int)
    requires Fits(w, sys) && 0 <= q < |sys|
    ensures LogOk(w.nC, MatchedAt(w, sys, q).0)
  {
    MatchFacts(w, sys[q].log, Incoming(w, sys, q), |sys[q].log|);
  }

  /** The log of p after matching and marking, before the prune pass. */
  ghost function RoundLog(w: Topo, sys: seq<Proc>, p: int): seq<Rec>
    requires Fits(w, sys) && 0 <= p < |sys|
  {
    MatchedLogOk(w, sys, p);
    var l := MatchedAt(w, sys, p).0;
    seq(|l|, i requires 0 <= i < |l| => MarkOne(w.nC, w.nR, w.ctr, w.rtc, l[i], Back(w, sys, p)))
  }

  ghost function Keys(log: seq<Rec>, k: Kind): set<(int, int)> {
    set i | 0 <= i < |log| && log[i].kind == k && Deletable(log[i]) :: (log[i].target, log[i].id)
  }

  ghost function RoundProc(w: Topo, sys: seq<Proc>, p: int): Proc
    requires Fits(w, sys) && 0 <= p < |sys|
  {
    var l := RoundLog(w, sys, p);
    Proc(Pruned(l), sys[p].settled + Keys(l, Send), sys[p].forgotten + Keys(l, Recv))
  }

  ghost function Round(w: Topo, sys: seq<Proc>): seq<Proc>
    requires Fits(w, sys)
  {
    seq(|sys|, p requires 0 <= p < |sys| => RoundProc(w, sys, p))
  }

  lemma MarkingMakesRound(w: Topo, sys: seq<Proc>, p: int, log': seq<Rec>)
    requires Fits(w, sys) && 0 <= p < |sys| && LogOk(w.nC, MatchedAt(w, sys, p).0)
    requires MarkedFrom(w.nC, w.nR, w.ctr, w.rtc, MatchedAt(w, sys, p).0, Back(w, sys, p), log')
    ensures log' == RoundLog(w, sys, p) && Pruned(log') == Round(w, sys)[p].log
  {
    assert |log'| == |RoundLog(w, sys, p)|;
    assert forall i :: 0 <= i < |log'| ==> log'[i] == RoundLog(w, sys, p)[i];
  }

  // ---- What matching does to one log ----

  /** x' is x, or x is a completed send whose id every copy of its destination reported and x' is x marked. */
  ghost predicate MatchKept(w: Topo, x: Rec, x': Rec, segs: seq<seq<int>>)
    requires SegmentsFit(w.nC, w.nR, w.ctr, w.rtc, segs)
  {
    || x' == x
    || (&& x.kind == Send && x.done && 0 <= x.target < w.nC && x' == x.(delcmp := true, delrep := true)
        && forall t :: 0 <= t < |segs| && CopyOf(w.nC, w.ctr, t, x.target) ==> x.id in segs[t])
  }

  /** An id missing from segment t after matching was taken by a marked send to t's rank. */
  ghost predicate TakenBy(w: Topo, log': seq<Rec>, t: int, id: int) {
    exists j :: 0 <= j < |log'| && log'[j].kind == Send && Deletable(log'[j]) && log'[j].id == id
                && 0 <= log'[j].target < |w.ctr| && CopyOf(w.nC, w.ctr, t, log'[j].target)
  }

  ghost predicate SegmentsKept(w: Topo, log': seq<Rec>, segs: seq<seq<int>>, segs': seq<seq<int>>) {
    && |segs'| == |segs|
    && (forall t :: 0 <= t < |segs| ==> |segs'[t]| == |segs[t]|)
    && (forall t, i :: 0 <= t < |segs| && 0 <= i < |segs[t]| ==>
          segs'[t][i] == segs[t][i] || (segs'[t][i] == TAKEN && TakenBy(w, log', t, segs[t][i])))
  }

  lemma MatchOneFacts(w: Topo, x: Rec, segs0: seq<seq<int>>, segs: seq<seq<int>>, log: seq<Rec>, k: int)
    requires SegmentsFit(w.nC, w.nR, w.ctr, w.rtc, segs) && |segs0| == |segs|
    requires 0 <= k < |log| && log[k] == x && 0 <= x.id && (x.kind == Send && x.done ==> 0 <= x.target < w.nC)
    requires SegmentsKept(w, log, segs0, segs)
    ensures var o := MatchOne(w.nC, w.nR, w.ctr, w.rtc, x, segs);
      MatchKept(w, x, o.0, segs0) && SegmentsKept(w, log[k := o.0], segs0, o.1)
  {
    var (x', segs') := MatchOne(w.nC, w.nR, w.ctr, w.rtc, x, segs);
    var log' := log[k := x'];
    forall t, i | 0 <= t < |segs0| && 0 <= i < |segs0[t]|
      ensures segs'[t][i] == segs0[t][i] || (segs'[t][i] == TAKEN && TakenBy(w, log', t, segs0[t][i]))
    {
      if segs[t][i] != segs0[t][i] {
        StillTaken(w, log, k, x', t, segs0[t][i]);
      } else if segs'[t][i] != segs[t][i] {
        assert log'[k] == x' && CopyOf(w.nC, w.ctr, t, x'.target);
      }
    }
  }

  lemma StillTaken(w: Topo, log: seq<Rec>, k: int, x': Rec, t: int, id: int)
    requires 0 <= k < |log| && TakenBy(w, log, t, id)
    requires x' == log[k] || (log[k].done && x' == log[k].(delcmp := true, delrep := true))
    ensures TakenBy(w, log[k := x'], t, id)
  {
    var j :| 0 <= j < |log| && log[j].kind == Send && Deletable(log[j]) && log[j].id == id
             && 0 <= log[j].target < |w.ctr| && CopyOf(w.nC, w.ctr, t, log[j].target);
    var log' := log[k := x'];
    assert log'[j].kind == Send && Deletable(log'[j]) && log'[j].id == id && log'[j].target == log[j].target;
  }

  lemma MatchFacts(w: Topo, log: seq<Rec>, segs: seq<seq<int>>, k: int)
    requires SegmentsFit(w.nC, w.nR, w.ctr, w.rtc, segs) && LogOk(w.nC, log) && 0 <= k <= |log|
    ensures var m := Matched(w.nC, w.nR, w.ctr, w.rtc, log, segs, k);
      && LogOk(w.nC, m.0)
      && (forall i :: 0 <= i < |log| ==> MatchKept(w, log[i], m.0[i], segs))
      && SegmentsKept(w, m.0, segs, m.1)
    decreases k
  {
    if k > 0 {
      MatchFacts(w, log, segs, k - 1);
      var m := Matched(w.nC, w.nR, w.ctr, w.rtc, log, segs, k - 1);
      assert m.0[k - 1] == m.0[k - 1..][0] == log[k - 1];
      MatchOneFacts(w, log[k - 1], segs, m.1, m.0, k - 1);
    }
  }

  lemma CopiesDiffer(w: Topo, t: int, c: int, c': int)
    requires Paired(w.nC, w.nR, w.ctr, w.rtc) && 0 <= c < w.nC && 0 <= c' < w.nC
    requires CopyOf(w.nC, w.ctr, t, c) && CopyOf(w.nC, w.ctr, t, c')
    ensures c == c'
  {
  }

  /** Matching one record takes only its own id, and only from copies of its own destination. */
  lemma MatchOneSpares(w: Topo, x: Rec, segs: seq<seq<int>>, c: int, id: int, t: int)
    requires SegmentsFit(w.nC, w.nR, w.ctr, w.rtc, segs) && (x.kind == Send && x.done ==> 0 <= x.target < w.nC)
    requires 0 <= c < w.nC && CopyOf(w.nC, w.ctr, t, c) && 0 <= t < |segs| && id in segs[t] && id != TAKEN
    requires !(x.kind == Send && x.target == c && x.id == id)
    ensures var segs' := MatchOne(w.nC, w.nR, w.ctr, w.rtc, x, segs).1; |segs'| == |segs| && id in segs'[t]
  {
    var segs' := MatchOne(w.nC, w.nR, w.ctr, w.rtc, x, segs).1;
    var i :| 0 <= i < |segs[t]| && segs[t][i] == id;
    if x.kind == Send && x.done && CopyOf(w.nC, w.ctr, t, x.target) { CopiesDiffer(w, t, c, x.target); }
    hide Paired;
    assert segs'[t][i] == id;
  }

  lemma {:induction false} MatchSpares(w: Topo, log: seq<Rec>, segs: seq<seq<int>>, k: int, c: int, id: int, t: int)
    requires SegmentsFit(w.nC, w.nR, w.ctr, w.rtc, segs) && LogOk(w.nC, log) && 0 <= k <= |log|
    requires 0 <= c < w.nC && CopyOf(w.nC, w.ctr, t, c) && 0 <= t < |segs| && id in segs[t] && id != TAKEN
    requires forall i :: 0 <= i < k ==> !(log[i].kind == Send && log[i].target == c && log[i].id == id)
    ensures id in Matched(w.nC, w.nR, w.ctr, w.rtc, log, segs, k).1[t]
    decreases k
  {
    hide MatchOne, Paired;
    if k > 0 {
      MatchSpares(w, log, segs, k - 1, c, id, t);
      MatchOneSpares(w, log[k - 1], Matched(w.nC, w.nR, w.ctr, w.rtc, log, segs, k - 1).1, c, id, t);
    }
  }

  lemma {:induction false} MatchedStays(w: Topo, log: seq<Rec>, segs: seq<seq<int>>, i: int, k: int)
    requires SegmentsFit(w.nC, w.nR, w.ctr, w.rtc, segs) && LogOk(w.nC, log) && 0 <= i < k <= |log|
    ensures Matched(w.nC, w.nR, w.ctr, w.rtc, log, segs, k).0[i] ==
      Matched(w.nC, w.nR, w.ctr, w.rtc, log, segs, i + 1).0[i]
    decreases k
  {
    hide MatchOne, Paired;
    if i + 1 < k { MatchedStays(w, log, segs, i, k - 1); }
  }

  lemma MatchOneMarks(w: Topo, x: Rec, segs: seq<seq<int>>)
    requires SegmentsFit(w.nC, w.nR, w.ctr, w.rtc, segs) && x.kind == Send && x.done && 0 <= x.target < w.nC
    requires forall t :: 0 <= t < |segs| && CopyOf(w.nC, w.ctr, t, x.target) ==> x.id in segs[t]
    ensures MatchOne(w.nC, w.nR, w.ctr, w.rtc, x, segs).0 == x.(delcmp := true, delrep := true)
  {
    var c := x.target;
    assert CopyOf(w.nC, w.ctr, c, c);
    if w.ctr[c] != NONE { assert CopyOf(w.nC, w.ctr, w.nC + w.ctr[c], c); }
  }

  /** A completed send that every copy of its destination reported is marked, ids being unique per sender. */
  lemma ReportedSendIsMarked(w: Topo, log: seq<Rec>, segs: seq<seq<int>>, i: int)
    requires SegmentsFit(w.nC, w.nR, w.ctr, w.rtc, segs) && LogOk(w.nC, log) && UniqueSends(log)
    requires 0 <= i < |log| && log[i].kind == Send && log[i].done && 0 <= log[i].target < w.nC
    requires forall t :: 0 <= t < |segs| && CopyOf(w.nC, w.ctr, t, log[i].target) ==> log[i].id in segs[t]
    ensures Deletable(Matched(w.nC, w.nR, w.ctr, w.rtc, log, segs, |log|).0[i])
  {
    var x := log[i];
    var m := Matched(w.nC, w.nR, w.ctr, w.rtc, log, segs, i);
    forall t | 0 <= t < |segs| && CopyOf(w.nC, w.ctr, t, x.target)
      ensures x.id in m.1[t]
    {
      MatchSpares(w, log, segs, i, x.target, x.id, t);
    }
    MatchOneMarks(w, x, m.1);
    MatchedStays(w, log, segs, i, |log|);
  }

  // ---- The exchanges and the passes make the round ----

  /** What the alltoallv of MPI-3.1 section 5.8 leaves in q's buffer: at rdispls[p], what p had for q. */
  ghost predicate Delivered(bufs: seq<seq<int>>, counts: seq<seq<int>>, displs: seq<seq<int>>, q: int,
                            rbuf: seq<int>, rcounts: seq<int>, rdispls: seq<int>) {
    && |bufs| == |counts| == |displs| == |rcounts| == |rdispls|
    && forall p :: 0 <= p < |bufs| ==> DeliveredFrom(bufs[p], counts[p], displs[p], q, rbuf, rcounts[p], rdispls[p])
  }

  ghost predicate DeliveredFrom(buf: seq<int>, counts: seq<int>, displs: seq<int>, q: int, rbuf: seq<int>, rcount: int,
                                rdispl: int) {
    && 0 <= q < |counts| == |displs| && rcount == counts[q] >= 0
    && 0 <= displs[q] && displs[q] + rcount <= |buf| && 0 <= rdispl && rdispl + rcount <= |rbuf|
    && rbuf[rdispl..rdispl + rcount] == buf[displs[q]..displs[q] + rcount]
  }

  /** Displacements are the running sums of the counts, and the buffer has room for exactly all of them. */
  ghost predicate LaidOut(buf: seq<int>, counts: seq<int>, displs: seq<int>) {
    && |displs| == |counts| && |buf| == Sum(counts)
    && forall t :: 0 <= t < |counts| ==> 0 <= counts[t] && displs[t] == Sum(counts[..t])
  }

  /** An exchange transposes the segments: what q receives from p is p's segment for q. */
  lemma ExchangeTransposes(bufs: seq<seq<int>>, counts: seq<seq<int>>, displs: seq<seq<int>>, segs: seq<seq<seq<int>>>,
                           q: int, rbuf: seq<int>, rcounts: seq<int>, rdispls: seq<int>, rsegs: seq<seq<int>>)
    requires Delivered(bufs, counts, displs, q, rbuf, rcounts, rdispls) && LaidOut(rbuf, rcounts, rdispls)
    requires |segs| == |bufs|
    requires forall p :: 0 <= p < |bufs| ==> Packed(bufs[p], counts[p], displs[p], segs[p])
    requires |rsegs| == |segs| && forall p :: 0 <= p < |segs| ==> q < |segs[p]| && 0 <= q && rsegs[p] == segs[p][q]
    ensures Packed(rbuf, rcounts, rdispls, rsegs)
  {
    hide Sum;
    forall p | 0 <= p < |rsegs|
      ensures rcounts[p] == |rsegs[p]| && 0 <= rdispls[p] && rdispls[p] + rcounts[p] <= |rbuf|
      ensures rbuf[rdispls[p]..rdispls[p] + rcounts[p]] == rsegs[p]
    {
      assert DeliveredFrom(bufs[p], counts[p], displs[p], q, rbuf, rcounts[p], rdispls[p]);
      SegmentPlace(bufs[p], counts[p], displs[p], segs[p], q);
    }
    forall t, u | 0 <= t < u < |rsegs|
      ensures rdispls[t] + rcounts[t] <= rdispls[u]
    {
      SumAbove(rcounts, t, u);
    }
  }

  /** The first exchange: the ids every process packed arrive as this process's incoming segments. */
  lemma FirstExchange(w: Topo, sys: seq<Proc>, q: int, bufs: seq<seq<int>>, counts: seq<seq<int>>,
                      displs: seq<seq<int>>, rbuf: seq<int>, rcounts: seq<int>, rdispls: seq<int>)
    requires Fits(w, sys) && 0 <= q < |sys| && |bufs| == |counts| == |displs| == |sys|
    requires forall p :: 0 <= p < |sys| ==>
      Packed(bufs[p], counts[p], displs[p], Segments(w.nC, w.nR, w.ctr, sys[p].log))
    requires Delivered(bufs, counts, displs, q, rbuf, rcounts, rdispls) && LaidOut(rbuf, rcounts, rdispls)
    ensures Packed(rbuf, rcounts, rdispls, Incoming(w, sys, q))
  {
    var segs := seq(|sys|, p requires 0 <= p < |sys| => Segments(w.nC, w.nR, w.ctr, sys[p].log));
    hide Packed, Delivered, LaidOut, Segment;
    ExchangeTransposes(bufs, counts, displs, segs, q, rbuf, rcounts, rdispls, Incoming(w, sys, q));
  }

  /** The second exchange: the matched segments of every process arrive back where they were packed. */
  lemma SecondExchange(w: Topo, sys: seq<Proc>, p: int, bufs: seq<seq<int>>, counts: seq<seq<int>>,
                       displs: seq<seq<int>>, rbuf: seq<int>, rcounts: seq<int>, rdispls: seq<int>)
    requires Fits(w, sys) && 0 <= p < |sys| && |bufs| == |counts| == |displs| == |sys|
    requires forall q :: 0 <= q < |sys| ==> Packed(bufs[q], counts[q], displs[q], MatchedAt(w, sys, q).1)
    requires Delivered(bufs, counts, displs, p, rbuf, rcounts, rdispls) && LaidOut(rbuf, rcounts, rdispls)
    ensures Packed(rbuf, rcounts, rdispls, Back(w, sys, p))
  {
    var segs := seq(|sys|, q requires 0 <= q < |sys| => MatchedAt(w, sys, q).1);
    hide Packed, Delivered, LaidOut, Matched;
    ExchangeTransposes(bufs, counts, displs, segs, p, rbuf, rcounts, rdispls, Back(w, sys, p));
  }

  /** What a process sends in the first exchange: count, displace, pack. */
  method Report(w: Topo, ghost sys: seq<Proc>, log: seq<Rec>, ghost p: int)
    returns (buf: array<int>, counts: array<int>, displs: array<int>)
    requires Fits(w, sys) && 0 <= p < |sys| && log == sys[p].log
    ensures Packed(buf[..], counts[..], displs[..], Segments(w.nC, w.nR, w.ctr, sys[p].log))
    ensures LaidOut(buf[..], counts[..], displs[..])
  {
    hide Packed, Segment, Sum;
    counts := CountReceives(log, w.nC, w.nR, w.ctr, w.rtc);
    displs := Displacements(counts);
    buf := PackIds(log, w.nC, w.nR, w.ctr, w.rtc, counts, displs);
    assert forall t :: 0 <= t < |counts[..]| ==> counts[..][..t] == counts[..t];
  }

  /** What q expects from p is what p has for q.  MPI-3.1 section 5.8 asks this of the callers of an alltoallv. */
  ghost predicate Agree(counts: seq<seq<int>>, q: int, rcounts: seq<int>) {
    |rcounts| == |counts| && forall p :: 0 <= p < |counts| ==> CountIs(counts[p], q, rcounts[p])
  }

  ghost predicate CountIs(counts: seq<int>, q: int, n: int) {
    0 <= q < |counts| && counts[q] == n
  }

  /** Once the counts have been exchanged they also agree the other way round: the counts a process received are
      those it may send back, and the counts it sent are those it will receive. */
  lemma CountsReturn(counts: seq<seq<int>>, icounts: seq<seq<int>>, p: int)
    requires |icounts| == |counts| && 0 <= p < |counts| && |counts[p]| == |counts|
    requires forall q :: 0 <= q < |icounts| ==> Agree(counts, q, icounts[q])
    ensures Agree(icounts, p, counts[p])
  {
    forall q | 0 <= q < |icounts|
      ensures CountIs(icounts[q], p, counts[p][q])
    {
      assert Agree(counts, q, icounts[q]);
      assert CountIs(counts[p], q, icounts[q][p]);
    }
  }

  ghost predicate HasFor(counts: seq<int>, q: int) {
    0 <= q < |counts| && 0 <= counts[q]
  }

  /** The exchange of one count per pair, as seen by q. */
  method AllToAll(counts: seq<seq<int>>, q: int) returns (rcounts: array<int>)
    requires forall p :: 0 <= p < |counts| ==> HasFor(counts[p], q)
    ensures fresh(rcounts) && Agree(counts, q, rcounts[..])
  {
    rcounts := new int[|counts|](p requires 0 <= p < |counts| && HasFor(counts[p], q) => counts[p][q]);
    forall p | 0 <= p < |counts|
      ensures CountIs(counts[p], q, rcounts[..][p])
    {
      assert HasFor(counts[p], q);
    }
  }

  /** The exchange of the ids, as seen by q: what each p has for q goes to the place q keeps for it. */
  method AllToAllV(bufs: seq<seq<int>>, counts: seq<seq<int>>, displs: seq<seq<int>>, q: int,
                   ghost segs: seq<seq<seq<int>>>, rbuf: array<int>, rcounts: array<int>, rdispls: array<int>)
    requires |bufs| == |counts| == |displs| == |segs|
    requires forall p :: 0 <= p < |bufs| ==> Packed(bufs[p], counts[p], displs[p], segs[p]) && 0 <= q < |segs[p]|
    requires Agree(counts, q, rcounts[..]) && LaidOut(rbuf[..], rcounts[..], rdispls[..])
    requires rbuf != rcounts && rbuf != rdispls
    modifies rbuf
    ensures Delivered(bufs, counts, displs, q, rbuf[..], rcounts[..], rdispls[..])
    ensures LaidOut(rbuf[..], rcounts[..], rdispls[..])
  {
    hide Packed, DeliveredFrom, LaidOut;
    ghost var cs, ds := rcounts[..], rdispls[..];
    LaidOutFacts(rbuf[..], cs, ds);
    for p := 0 to |bufs|
      invariant rcounts[..] == cs && rdispls[..] == ds && LaidOut(rbuf[..], cs, ds)
      invariant forall k :: 0 <= k < p ==> DeliveredFrom(bufs[k], counts[k], displs[k], q, rbuf[..], cs[k], ds[k])
    {
      SegmentPlace(bufs[p], counts[p], displs[p], segs[p], q);
      LaidOutPlace(rbuf[..], cs, ds, p);
      assert CountIs(counts[p], q, cs[p]);
      ghost var before := rbuf[..];
      var to, part := rdispls[p], bufs[p][displs[p][q]..displs[p][q] + rcounts[p]];
      forall i | 0 <= i < |part| {
        rbuf[to + i] := part[i];
      }
      assert rbuf[..][to..to + |part|] == part;
      LaidOutAnyway(before, rbuf[..], cs, ds);
      forall k | 0 <= k < p
        ensures DeliveredFrom(bufs[k], counts[k], displs[k], q, rbuf[..], cs[k], ds[k])
      {
        LaidOutApart(before, cs, ds, k, p);
        DeliveredStays(bufs[k], counts[k], displs[k], q, before, cs[k], ds[k], rbuf[..], to);
      }
      DeliveredNow(bufs[p], counts[p], displs[p], q, rbuf[..], cs[p], to);
    }
  }

  lemma LaidOutFacts(b: seq<int>, c: seq<int>, d: seq<int>)
    requires LaidOut(b, c, d)
    ensures |c| == |d|
  {
  }

  lemma LaidOutPlace(b: seq<int>, c: seq<int>, d: seq<int>, p: int)
    requires LaidOut(b, c, d) && 0 <= p < |c|
    ensures |d| == |c| && 0 <= d[p] && 0 <= c[p] && d[p] + c[p] <= |b|
  {
    hide Sum;
    SumAbove(c, p, |c|);
    assert c[..|c|] == c;
  }

  lemma LaidOutApart(b: seq<int>, c: seq<int>, d: seq<int>, k: int, p: int)
    requires LaidOut(b, c, d) && 0 <= k < p < |c|
    ensures |d| == |c| && d[k] + c[k] <= d[p]
  {
    hide Sum;
    SumAbove(c, k, p);
  }

  lemma LaidOutAnyway(b: seq<int>, b': seq<int>, c: seq<int>, d: seq<int>)
    requires LaidOut(b, c, d) && |b'| == |b|
    ensures LaidOut(b', c, d)
  {
  }

  lemma DeliveredStays(buf: seq<int>, counts: seq<int>, displs: seq<int>, q: int, b: seq<int>, rcount: int, rdispl: int,
                       b': seq<int>, to: int)
    requires DeliveredFrom(buf, counts, displs, q, b, rcount, rdispl) && rdispl + rcount <= to <= |b| == |b'|
    requires forall i :: 0 <= i < to ==> b'[i] == b[i]
    ensures DeliveredFrom(buf, counts, displs, q, b', rcount, rdispl)
  {
    assert b'[rdispl..rdispl + rcount] == b[rdispl..rdispl + rcount];
  }

  lemma DeliveredNow(buf: seq<int>, counts: seq<int>, displs: seq<int>, q: int, b: seq<int>, rcount: int, rdispl: int)
    requires 0 <= q < |counts| == |displs| && rcount == counts[q] >= 0 && 0 <= displs[q] && displs[q] + rcount <= |buf|
    requires 0 <= rdispl && rdispl + rcount <= |b|
    requires b[rdispl..rdispl + rcount] == buf[displs[q]..displs[q] + rcount]
    ensures DeliveredFrom(buf, counts, displs, q, b, rcount, rdispl)
  {
  }

  lemma PackedSizes(buf: seq<int>, counts: seq<int>, displs: seq<int>, segs: seq<seq<int>>)
    requires Packed(buf, counts, displs, segs)
    ensures |counts| == |displs| == |segs| && forall t :: 0 <= t < |counts| ==> 0 <= counts[t]
  {
  }

  /** Room for what the exchange of the counts announced: recvfrommenums, its displacements and allsendids. */
  method MakeRoom(counts: seq<seq<int>>, q: int) returns (rbuf: array<int>, rcounts: array<int>, rdispls: array<int>)
    requires forall p :: 0 <= p < |counts| ==> HasFor(counts[p], q)
    ensures fresh(rbuf) && fresh(rcounts) && fresh(rdispls) && rbuf != rcounts && rbuf != rdispls
    ensures Agree(counts, q, rcounts[..]) && LaidOut(rbuf[..], rcounts[..], rdispls[..])
  {
    hide Sum;
    rcounts := AllToAll(counts, q);
    rdispls := Displacements(rcounts);
    var total := ArraySum(rcounts);
    ghost var cs := rcounts[..];
    SumMonotone(cs, 0, |cs|);
    assert cs[..|cs|] == cs;
    rbuf := new int[total];
    assert forall t :: 0 <= t < |cs| ==> cs[..t] == rcounts[..t];
  }

  /** Matching and marking keep the bytes a log accounts for. */
  lemma MarkingKeepsBytes(w: Topo, sys: seq<Proc>, p: int, log': seq<Rec>)
    requires Fits(w, sys) && 0 <= p < |sys| && LogOk(w.nC, MatchedAt(w, sys, p).0)
    requires MarkedFrom(w.nC, w.nR, w.ctr, w.rtc, MatchedAt(w, sys, p).0, Back(w, sys, p), log')
    ensures Bytes(log') == Bytes(sys[p].log)
  {
    var log, m := sys[p].log, MatchedAt(w, sys, p).0;
    MatchFacts(w, log, Incoming(w, sys, p), |log|);
    hide Paired, Matched;
    assert forall i :: 0 <= i < |log| ==> MatchKept(w, log[i], m[i], Incoming(w, sys, p));
    BytesSame(m, log);
    BytesSame(log', m);
  }

  /** The first exchange at process q: what every process packed for it. */
  method Receive(w: Topo, ghost sys: seq<Proc>, q: int, bufs: seq<seq<int>>, counts: seq<seq<int>>,
                 displs: seq<seq<int>>)
    returns (rbuf: array<int>, rcounts: array<int>, rdispls: array<int>)
    requires Fits(w, sys) && 0 <= q < |sys| && |bufs| == |counts| == |displs| == |sys|
    requires forall p :: 0 <= p < |sys| ==>
      Packed(bufs[p], counts[p], displs[p], Segments(w.nC, w.nR, w.ctr, sys[p].log))
    ensures fresh(rbuf) && fresh(rcounts) && fresh(rdispls) && rbuf != rcounts && rbuf != rdispls
    ensures Packed(rbuf[..], rcounts[..], rdispls[..], Incoming(w, sys, q)) && Agree(counts, q, rcounts[..])
  {
    ghost var segs := seq(|sys|, p requires 0 <= p < |sys| => Segments(w.nC, w.nR, w.ctr, sys[p].log));
    hide Packed, Segment, LaidOut, Delivered, Agree;
    forall p | 0 <= p < |sys|
      ensures HasFor(counts[p], q)
    {
      PackedSizes(bufs[p], counts[p], displs[p], segs[p]);
    }
    rbuf, rcounts, rdispls := MakeRoom(counts, q);
    AllToAllV(bufs, counts, displs, q, segs, rbuf, rcounts, rdispls);
    FirstExchange(w, sys, q, bufs, counts, displs, rbuf[..], rcounts[..], rdispls[..]);
  }

  /** The first half of a process's part: match on what the first exchange delivers. */
  method Settle(w: Topo, ghost sys: seq<Proc>, q: int, proc: Process, bufs: seq<seq<int>>, counts: seq<seq<int>>,
                displs: seq<seq<int>>)
    returns (ids: seq<int>, rcounts: seq<int>, rdispls: seq<int>)
    requires Fits(w, sys) && 0 <= q < |sys| && proc.log == sys[q].log && |bufs| == |counts| == |displs| == |sys|
    requires forall p :: 0 <= p < |sys| ==>
      Packed(bufs[p], counts[p], displs[p], Segments(w.nC, w.nR, w.ctr, sys[p].log))
    modifies proc
    ensures proc.stored == old(proc.stored)
    ensures proc.log == MatchedAt(w, sys, q).0 && Packed(ids, rcounts, rdispls, MatchedAt(w, sys, q).1)
    ensures Agree(counts, q, rcounts)
  {
    hide Packed, Matched, Segment, Agree, Paired;
    var b, c, d := Receive(w, sys, q, bufs, counts, displs);
    proc.MatchSends(w.nC, w.nR, w.ctr, w.rtc, b, c, d, Incoming(w, sys, q));
    ids, rcounts, rdispls := b[..], c[..], d[..];
  }

  /** The second exchange at process p.  The ids come back into the buffer they were packed in, under the counts and
      displacements of the first exchange. */
  method ReceiveBack(w: Topo, ghost sys: seq<Proc>, p: int, bufs: seq<seq<int>>, counts: seq<seq<int>>,
                     displs: seq<seq<int>>, rbuf: array<int>, recvnums: array<int>, recvdispls: array<int>)
    requires Fits(w, sys) && 0 <= p < |sys| && |bufs| == |counts| == |displs| == |sys|
    requires forall q :: 0 <= q < |sys| ==> Packed(bufs[q], counts[q], displs[q], MatchedAt(w, sys, q).1)
    requires Agree(counts, p, recvnums[..]) && LaidOut(rbuf[..], recvnums[..], recvdispls[..])
    requires rbuf != recvnums && rbuf != recvdispls
    modifies rbuf
    ensures Packed(rbuf[..], recvnums[..], recvdispls[..], Back(w, sys, p))
  {
    ghost var segs := seq(|sys|, q requires 0 <= q < |sys| => MatchedAt(w, sys, q).1);
    hide Packed, Matched, LaidOut, Delivered, Agree;
    AllToAllV(bufs, counts, displs, p, segs, rbuf, recvnums, recvdispls);
    SecondExchange(w, sys, p, bufs, counts, displs, rbuf[..], recvnums[..], recvdispls[..]);
  }

  /** The second half: mark and prune on what the second exchange brings back. */
  method Conclude(w: Topo, ghost sys: seq<Proc>, p: int, proc: Process, bufs: seq<seq<int>>, counts: seq<seq<int>>,
                  displs: seq<seq<int>>, sent: seq<int>, recvnums: seq<int>, recvdispls: seq<int>)
    requires Fits(w, sys) && 0 <= p < |sys| && proc.log == MatchedAt(w, sys, p).0
    requires |bufs| == |counts| == |displs| == |sys|
    requires forall q :: 0 <= q < |sys| ==> Packed(bufs[q], counts[q], displs[q], MatchedAt(w, sys, q).1)
    requires Agree(counts, p, recvnums) && LaidOut(sent, recvnums, recvdispls)
    modifies proc
    ensures proc.log == Round(w, sys)[p].log && proc.stored - Bytes(proc.log) == old(proc.stored) - Bytes(sys[p].log)
  {
    hide Packed, MatchedAt, LaidOut, MarkedFrom, Pruned, Agree, Bytes, Paired;
    var b := ArrayOf(sent);
    var c := ArrayOf(recvnums);
    var d := ArrayOf(recvdispls);
    ReceiveBack(w, sys, p, bufs, counts, displs, b, c, d);
    MatchedLogOk(w, sys, p);
    proc.MarkReceives(w.nC, w.nR, w.ctr, w.rtc, b, c, d, Back(w, sys, p));
    MarkingMakesRound(w, sys, p, proc.log);
    MarkingKeepsBytes(w, sys, p, proc.log);
    proc.Prune();
  }

  method ArrayOf(s: seq<int>) returns (a: array<int>)
    ensures fresh(a) && a[..] == s
  {
    a := new int[|s|](i requires 0 <= i < |s| => s[i]);
  }

  /** procs are the processes of the system, each once. */
  ghost predicate Staff(w: Topo, procs: seq<Process>, sys: seq<Proc>) {
    Fits(w, sys) && |procs| == |sys| && forall i, j :: 0 <= i < j < |procs| ==> procs[i] != procs[j]
  }

  method ReportAll(w: Topo, procs: seq<Process>, ghost sys: seq<Proc>)
    returns (bufs: seq<seq<int>>, counts: seq<seq<int>>, displs: seq<seq<int>>)
    requires Staff(w, procs, sys) && forall p :: 0 <= p < |procs| ==> procs[p].log == sys[p].log
    ensures |bufs| == |counts| == |displs| == |sys|
    ensures forall p :: 0 <= p < |sys| ==>
      Packed(bufs[p], counts[p], displs[p], Segments(w.nC, w.nR, w.ctr, sys[p].log))
    ensures forall p :: 0 <= p < |sys| ==> LaidOut(bufs[p], counts[p], displs[p]) && |counts[p]| == |sys|
  {
    hide Packed, Segment, LaidOut;
    bufs, counts, displs := [], [], [];
    for p := 0 to |procs|
      invariant |bufs| == |counts| == |displs| == p
      invariant forall k :: 0 <= k < p ==>
        Packed(bufs[k], counts[k], displs[k], Segments(w.nC, w.nR, w.ctr, sys[k].log))
      invariant forall k :: 0 <= k < p ==> LaidOut(bufs[k], counts[k], displs[k]) && |counts[k]| == |sys|
    {
      var b, c, d := Report(w, sys, procs[p].log, p);
      PackedSizes(b[..], c[..], d[..], Segments(w.nC, w.nR, w.ctr, sys[p].log));
      bufs, counts, displs := bufs + [b[..]], counts + [c[..]], displs + [d[..]];
    }
  }

  method SettleAll(w: Topo, procs: seq<Process>, ghost sys: seq<Proc>, bufs: seq<seq<int>>, counts: seq<seq<int>>,
                   displs: seq<seq<int>>)
    returns (ids: seq<seq<int>>, icounts: seq<seq<int>>, idispls: seq<seq<int>>)
    requires Staff(w, procs, sys) && |bufs| == |counts| == |displs| == |sys|
    requires forall p :: 0 <= p < |procs| ==> procs[p].log == sys[p].log
    requires forall p :: 0 <= p < |sys| ==>
      Packed(bufs[p], counts[p], displs[p], Segments(w.nC, w.nR, w.ctr, sys[p].log))
    modifies procs
    ensures |ids| == |icounts| == |idispls| == |sys|
    ensures forall q :: 0 <= q < |sys| ==>
      procs[q].log == MatchedAt(w, sys, q).0 && procs[q].stored == old(procs[q].stored)
    ensures forall q :: 0 <= q < |sys| ==> Packed(ids[q], icounts[q], idispls[q], MatchedAt(w, sys, q).1)
    ensures forall q :: 0 <= q < |sys| ==> Agree(counts, q, icounts[q])
  {
    hide Packed, MatchedAt, Segment, Paired, Agree, LogOk;
    ids, icounts, idispls := [], [], [];
    for q := 0 to |procs|
      invariant |ids| == |icounts| == |idispls| == q
      invariant forall k :: 0 <= k < q ==> procs[k].log == MatchedAt(w, sys, k).0
      invariant forall k :: 0 <= k < q ==> Packed(ids[k], icounts[k], idispls[k], MatchedAt(w, sys, k).1)
      invariant forall k :: 0 <= k < q ==> Agree(counts, k, icounts[k])
      invariant forall k :: q <= k < |procs| ==> procs[k].log == sys[k].log
      invariant forall k :: 0 <= k < |procs| ==> procs[k].stored == old(procs[k].stored)
    {
      var b, c, d := Settle(w, sys, q, procs[q], bufs, counts, displs);
      ids, icounts, idispls := ids + [b], icounts + [c], idispls + [d];
    }
  }

  lemma RoundSize(w: Topo, sys: seq<Proc>)
    requires Fits(w, sys)
    ensures |Round(w, sys)| == |sys|
  {
  }

  method ConcludeAll(w: Topo, procs: seq<Process>, ghost sys: seq<Proc>, ids: seq<seq<int>>, icounts: seq<seq<int>>,
                     idispls: seq<seq<int>>, bufs: seq<seq<int>>, counts: seq<seq<int>>, displs: seq<seq<int>>)
    requires Staff(w, procs, sys) && |ids| == |icounts| == |idispls| == |sys|
    requires forall q :: 0 <= q < |sys| ==> procs[q].log == MatchedAt(w, sys, q).0
    requires forall q :: 0 <= q < |sys| ==> Packed(ids[q], icounts[q], idispls[q], MatchedAt(w, sys, q).1)
    requires |bufs| == |counts| == |displs| == |sys| && forall q :: 0 <= q < |sys| ==> Agree(counts, q, icounts[q])
    requires forall p :: 0 <= p < |sys| ==> LaidOut(bufs[p], counts[p], displs[p]) && |counts[p]| == |sys|
    modifies procs
    ensures |Round(w, sys)| == |sys| && forall p :: 0 <= p < |procs| ==> procs[p].log == Round(w, sys)[p].log
    ensures forall p :: 0 <= p < |procs| ==>
      procs[p].stored - Bytes(procs[p].log) == old(procs[p].stored) - Bytes(sys[p].log)
  {
    hide Packed, MatchedAt, Round, Paired, LogOk, Agree, LaidOut, Bytes;
    RoundSize(w, sys);
    for p := 0 to |procs|
      invariant forall k :: 0 <= k < p ==> procs[k].log == Round(w, sys)[k].log
      invariant forall k :: 0 <= k < p ==>
        procs[k].stored - Bytes(procs[k].log) == old(procs[k].stored) - Bytes(sys[k].log)
      invariant forall k :: p <= k < |procs| ==>
        procs[k].log == MatchedAt(w, sys, k).0 && procs[k].stored == old(procs[k].stored)
    {
      CountsReturn(counts, icounts, p);
      Conclude(w, sys, p, procs[p], ids, icounts, idispls, bufs[p], counts[p], displs[p]);
    }
  }

  /** handle_rem_recv and the prune pass on every process: all report, all match what they are sent, all mark and prune
      on what comes back.  The logs are then those of the round. */
  method WholeRound(w: Topo, procs: seq<Process>, ghost sys: seq<Proc>)
    requires Staff(w, procs, sys) && forall p :: 0 <= p < |procs| ==> procs[p].log == sys[p].log
    modifies procs
    ensures |Round(w, sys)| == |sys| && forall p :: 0 <= p < |procs| ==> procs[p].log == Round(w, sys)[p].log
    ensures forall p :: 0 <= p < |procs| ==>
      procs[p].stored - Bytes(procs[p].log) == old(procs[p].stored) - Bytes(sys[p].log)
  {
    hide Packed, MatchedAt, Segment, Round, Paired, Agree, LaidOut, Bytes;
    var bufs, counts, displs := ReportAll(w, procs, sys);
    var ids, icounts, idispls := SettleAll(w, procs, sys, bufs, counts, displs);
    ConcludeAll(w, procs, sys, ids, icounts, idispls, bufs, counts, displs);
  }

  // ---- What a round does to one process ----

  ghost predicate Has(log: seq<Rec>, kind: Kind, partner: int, id: int) {
    exists i :: 0 <= i < |log| && log[i].kind == kind && log[i].target == partner && log[i].id == id
  }

  ghost predicate HasDone(log: seq<Rec>, kind: Kind, partner: int, id: int) {
    exists i :: 0 <= i < |log| && log[i].kind == kind && log[i].target == partner && log[i].id == id && log[i].done
  }

  /** Process d holds a completed receive of this source and id. */
  ghost predicate HasReceipt(sys: seq<Proc>, d: int, source: int, id: int)
    requires 0 <= d < |sys|
  {
    HasDone(sys[d].log, Recv, source, id)
  }

  lemma SegmentIsReceipts(w: Topo, sys: seq<Proc>, d: int, q: int, id: int)
    requires Fits(w, sys) && 0 <= d < |sys| && 0 <= q < |sys|
    ensures id in Segment(w.nC, w.ctr, sys[d].log, q) <==> HasReceipt(sys, d, Logical(w, q), id)
  {
    SegmentHolds(w.nC, w.ctr, sys[d].log, q, id);
    hide Segment, Paired;
    if i :| 0 <= i < |sys[d].log| && Reported(sys[d].log[i]) && sys[d].log[i].id == id
            && CopyOf(w.nC, w.ctr, q, sys[d].log[i].target) {
      CopyIsLogical(w, q, sys[d].log[i].target);
    }
    if i :| 0 <= i < |sys[d].log| && sys[d].log[i].kind == Recv && sys[d].log[i].target == Logical(w, q)
            && sys[d].log[i].id == id && sys[d].log[i].done {
      CopyIsLogical(w, q, sys[d].log[i].target);
    }
  }

  /** A send dropped in a round was reported received by every copy of its destination. */
  lemma DroppedSendWasReceived(w: Topo, sys: seq<Proc>, q: int, j: int, d: int)
    requires Fits(w, sys) && 0 <= q < |sys| && 0 <= j < |sys[q].log| && 0 <= d < |sys|
    requires sys[q].log[j].kind == Send && !(sys[q].log[j].delcmp && sys[q].log[j].delrep)
    requires |RoundLog(w, sys, q)| == |sys[q].log| && Deletable(RoundLog(w, sys, q)[j])
    requires 0 <= sys[q].log[j].target < w.nC && CopyOf(w.nC, w.ctr, d, sys[q].log[j].target)
    ensures HasReceipt(sys, d, Logical(w, q), sys[q].log[j].id)
  {
    var x := sys[q].log[j];
    MatchFacts(w, sys[q].log, Incoming(w, sys, q), |sys[q].log|);
    assert MatchKept(w, x, MatchedAt(w, sys, q).0[j], Incoming(w, sys, q));
    assert x.id in Incoming(w, sys, q)[d];
    SegmentIsReceipts(w, sys, d, q, x.id);
  }

  /** A completed, unmarked send is dropped in a round exactly when every copy of its destination has received it. */
  lemma SendDroppedIffReceived(w: Topo, sys: seq<Proc>, q: int, j: int)
    requires Fits(w, sys) && 0 <= q < |sys| && 0 <= j < |sys[q].log| && UniqueSends(sys[q].log)
    requires sys[q].log[j].kind == Send && sys[q].log[j].done && !(sys[q].log[j].delcmp && sys[q].log[j].delrep)
    ensures |RoundLog(w, sys, q)| == |sys[q].log| && 0 <= sys[q].log[j].target < w.nC
    ensures Deletable(RoundLog(w, sys, q)[j]) <==>
      forall d :: 0 <= d < |sys| && CopyOf(w.nC, w.ctr, d, sys[q].log[j].target) ==>
        HasReceipt(sys, d, Logical(w, q), sys[q].log[j].id)
  {
    var x := sys[q].log[j];
    SameLength(w, sys, q);
    assert 0 <= x.target < w.nC;
    if Deletable(RoundLog(w, sys, q)[j]) {
      forall d | 0 <= d < |sys| && CopyOf(w.nC, w.ctr, d, x.target)
        ensures HasReceipt(sys, d, Logical(w, q), x.id)
      {
        DroppedSendWasReceived(w, sys, q, j, d);
      }
    }
    if forall d :: 0 <= d < |sys| && CopyOf(w.nC, w.ctr, d, x.target) ==> HasReceipt(sys, d, Logical(w, q), x.id) {
      ReceivedSendIsDropped(w, sys, q, j);
    }
  }

  lemma ReceivedSendIsDropped(w: Topo, sys: seq<Proc>, q: int, j: int)
    requires Fits(w, sys) && 0 <= q < |sys| && 0 <= j < |sys[q].log| && UniqueSends(sys[q].log)
    requires |RoundLog(w, sys, q)| == |sys[q].log|
    requires sys[q].log[j].kind == Send && sys[q].log[j].done && 0 <= sys[q].log[j].target < w.nC
    requires forall d :: 0 <= d < |sys| && CopyOf(w.nC, w.ctr, d, sys[q].log[j].target) ==>
      HasReceipt(sys, d, Logical(w, q), sys[q].log[j].id)
    ensures Deletable(RoundLog(w, sys, q)[j])
  {
    var x, segs := sys[q].log[j], Incoming(w, sys, q);
    forall d | 0 <= d < |segs| && CopyOf(w.nC, w.ctr, d, x.target)
      ensures x.id in segs[d]
    {
      SegmentIsReceipts(w, sys, d, q, x.id);
    }
    ReportedSendIsMarked(w, sys[q].log, segs, j);
    MatchFacts(w, sys[q].log, segs, |sys[q].log|);
    assert MatchKept(w, x, MatchedAt(w, sys, q).0[j], segs);
  }

  /** An id that p reported to q and did not get back was taken by a send q dropped in this round. */
  lemma MissingIdWasSettled(w: Topo, sys: seq<Proc>, p: int, q: int, id: int)
    requires Fits(w, sys) && 0 <= p < |sys| && 0 <= q < |sys| && 0 <= id
    requires id in Segment(w.nC, w.ctr, sys[p].log, q) && id !in Back(w, sys, p)[q]
    ensures (Logical(w, p), id) in RoundProc(w, sys, q).settled
  {
    var segs := Incoming(w, sys, q);
    var m := MatchedAt(w, sys, q);
    MatchFacts(w, sys[q].log, segs, |sys[q].log|);
    var i :| 0 <= i < |segs[p]| && segs[p][i] == id;
    assert m.1[p][i] in Back(w, sys, p)[q];
    assert TakenBy(w, m.0, p, id);
    var j :| 0 <= j < |m.0| && m.0[j].kind == Send && Deletable(m.0[j]) && m.0[j].id == id
             && 0 <= m.0[j].target < |w.ctr| && CopyOf(w.nC, w.ctr, p, m.0[j].target);
    CopyIsLogical(w, p, m.0[j].target);
    assert RoundLog(w, sys, q)[j] == m.0[j];
  }

  // ---- The invariant ----

  /** Marks on a receive are backed: the copy they speak for has settled the send. */
  ghost predicate RecvBacked(w: Topo, sys: seq<Proc>, p: int, x: Rec)
    requires Fits(w, sys) && 0 <= p < |sys|
  {
    && (x.delcmp || x.delrep ==> 0 <= x.target < w.nC)
    && (x.delcmp ==> (Logical(w, p), x.id) in sys[x.target].settled)
    && (x.delrep && w.ctr[x.target] != NONE ==> (Logical(w, p), x.id) in sys[w.nC + w.ctr[x.target]].settled)
  }

  /** Every copy of rank s has settled its send of `id` to p's rank. */
  ghost predicate SettledByAll(w: Topo, sys: seq<Proc>, p: int, s: int, id: int)
    requires Fits(w, sys) && 0 <= p < |sys|
  {
    && 0 <= s < w.nC
    && forall q :: 0 <= q < |sys| && CopyOf(w.nC, w.ctr, q, s) ==> (Logical(w, p), id) in sys[q].settled
  }

  ghost predicate UniqueSends(log: seq<Rec>) {
    forall i, j :: 0 <= i < j < |log| && log[i].kind == Send && log[j].kind == Send ==>
      (log[i].target, log[i].id) != (log[j].target, log[j].id)
  }

  /** A send still in the log is unmarked and was never settled. */
  ghost predicate SendOpen(settled: set<(int, int)>, x: Rec) {
    x.kind == Send ==> !(x.delcmp && x.delrep) && (x.target, x.id) !in settled
  }

  ghost predicate ProcSafe(w: Topo, sys: seq<Proc>, p: int)
    requires Fits(w, sys) && 0 <= p < |sys|
  {
    && (forall x :: x in sys[p].log && x.kind == Recv ==> RecvBacked(w, sys, p, x))
    && (forall k :: k in sys[p].forgotten ==> SettledByAll(w, sys, p, k.0, k.1))
    && (forall x :: x in sys[p].log ==> SendOpen(sys[p].settled, x))
    && UniqueSends(sys[p].log)
  }

  ghost predicate Safe(w: Topo, sys: seq<Proc>) {
    Fits(w, sys) && forall p :: 0 <= p < |sys| ==> ProcSafe(w, sys, p)
  }

  // ---- A round keeps it ----

  lemma RoundFits(w: Topo, sys: seq<Proc>)
    requires Fits(w, sys)
    ensures Fits(w, Round(w, sys))
  {
    forall p | 0 <= p < |sys|
      ensures LogOk(w.nC, Round(w, sys)[p].log)
    {
      var l := RoundLog(w, sys, p);
      MatchedLogOk(w, sys, p);
      assert LogOk(w.nC, l);
      var log' := Pruned(l);
      forall i | 0 <= i < |log'|
        ensures 0 <= log'[i].id && (log'[i].kind != Other && log'[i].done ==> 0 <= log'[i].target < w.nC)
      {
        PrunedHolds(l, log'[i]);
      }
    }
  }

  /** Record i of p before and after matching and marking. */
  lemma RoundRecord(w: Topo, sys: seq<Proc>, p: int, i: int)
    requires Fits(w, sys) && 0 <= p < |sys| && 0 <= i < |sys[p].log|
    ensures |RoundLog(w, sys, p)| == |sys[p].log|
    ensures var x := sys[p].log[i]; var x' := RoundLog(w, sys, p)[i];
      && x'.kind == x.kind && x'.target == x.target && x'.id == x.id && x'.done == x.done
      && (x.kind == Send ==> x' == x || Deletable(x'))
      && (Reported(x) ==> 0 <= x.target < w.nC && x' == MarkOne(w.nC, w.nR, w.ctr, w.rtc, x, Back(w, sys, p)))
      && (x.kind == Recv && !Reported(x) ==> x' == x)
  {
    MatchFacts(w, sys[p].log, Incoming(w, sys, p), |sys[p].log|);
    assert MatchKept(w, sys[p].log[i], MatchedAt(w, sys, p).0[i], Incoming(w, sys, p));
  }

  lemma ReportedInSegment(w: Topo, sys: seq<Proc>, p: int, i: int, q: int)
    requires Fits(w, sys) && 0 <= p < |sys| && 0 <= i < |sys[p].log| && Reported(sys[p].log[i])
    requires 0 <= sys[p].log[i].target < w.nC && CopyOf(w.nC, w.ctr, q, sys[p].log[i].target)
    ensures sys[p].log[i].id in Segment(w.nC, w.ctr, sys[p].log, q)
  {
    SegmentHolds(w.nC, w.ctr, sys[p].log, q, sys[p].log[i].id);
  }

  // ---- When a round drops a receipt ----

  ghost predicate AtMostOnce(s: seq<int>, x: int) {
    forall a, b :: 0 <= a < b < |s| && s[a] == x ==> s[b] != x
  }

  /** Record i is the only one of its kind, partner and id. */
  ghost predicate OnlyOne(log: seq<Rec>, i: int)
    requires 0 <= i < |log|
  {
    forall j :: 0 <= j < |log| && j != i ==>
      !(log[j].kind == log[i].kind && log[j].target == log[i].target && log[j].id == log[i].id)
  }

  /** No send of the log has been marked, and their destinations and ids are unique. */
  ghost predicate OpenSends(log: seq<Rec>) {
    UniqueSends(log) && forall j :: 0 <= j < |log| && log[j].kind == Send ==> !(log[j].delcmp && log[j].delrep)
  }

  lemma {:induction false} SegmentOnce(nC: int, ctr: seq<int>, log: seq<Rec>, t: int, id: int)
    requires nC == |ctr| && LogOk(nC, log)
    requires forall i, j :: 0 <= i < j < |log| ==>
      !(ReportsTo(nC, ctr, log[i], t, id) && ReportsTo(nC, ctr, log[j], t, id))
    ensures AtMostOnce(Segment(nC, ctr, log, t), id)
  {
    if log != [] {
      var k := |log| - 1;
      var front := log[..k];
      assert forall i :: 0 <= i < k ==> front[i] == log[i];
      SegmentOnce(nC, ctr, front, t, id);
      SegmentHolds(nC, ctr, front, t, id);
      if i :| 0 <= i < |front| && Reported(front[i]) && front[i].id == id && CopyOf(nC, ctr, t, front[i].target) {
        assert ReportsTo(nC, ctr, log[i], t, id);
        assert !ReportsTo(nC, ctr, log[k], t, id);
      }
    }
  }

  ghost predicate ReportsTo(nC: int, ctr: seq<int>, x: Rec, t: int, id: int) {
    x.kind == Recv && x.done && x.id == id && 0 <= x.target < |ctr| && CopyOf(nC, ctr, t, x.target)
  }

  /** A receipt that is the only one of its source and id is reported once to each copy of the source. */
  lemma ReportedOnce(w: Topo, sys: seq<Proc>, p: int, i: int, q: int)
    requires Fits(w, sys) && 0 <= p < |sys| && 0 <= i < |sys[p].log| && OnlyOne(sys[p].log, i)
    requires sys[p].log[i].kind == Recv && sys[p].log[i].done
    requires 0 <= sys[p].log[i].target < w.nC && CopyOf(w.nC, w.ctr, q, sys[p].log[i].target)
    ensures AtMostOnce(Segment(w.nC, w.ctr, sys[p].log, q), sys[p].log[i].id)
  {
    var log, x := sys[p].log, sys[p].log[i];
    forall j | 0 <= j < |log| && ReportsTo(w.nC, w.ctr, log[j], q, x.id)
      ensures j == i
    {
      CopiesDiffer(w, q, log[j].target, x.target);
    }
    hide Paired, Segment;
    SegmentOnce(w.nC, w.ctr, log, q, x.id);
  }

  lemma MatchNeverAdds(w: Topo, x: Rec, segs: seq<seq<int>>, t: int, id: int)
    requires SegmentsFit(w.nC, w.nR, w.ctr, w.rtc, segs) && (x.kind == Send && x.done ==> 0 <= x.target < w.nC)
    requires 0 <= t < |segs| && id !in segs[t] && id != TAKEN
    ensures var segs' := MatchOne(w.nC, w.nR, w.ctr, w.rtc, x, segs).1; |segs'| == |segs| && id !in segs'[t]
  {
  }

  /** A send marked by matching takes its id out of the segment of every copy of its destination. */
  lemma MatchTakes(w: Topo, x: Rec, segs: seq<seq<int>>, t: int)
    requires SegmentsFit(w.nC, w.nR, w.ctr, w.rtc, segs) && x.kind == Send && x.done && 0 <= x.target < w.nC
    requires !(x.delcmp && x.delrep) && 0 <= x.id && MatchOne(w.nC, w.nR, w.ctr, w.rtc, x, segs).0 != x
    requires 0 <= t < |segs| && CopyOf(w.nC, w.ctr, t, x.target) && AtMostOnce(segs[t], x.id)
    ensures var segs' := MatchOne(w.nC, w.nR, w.ctr, w.rtc, x, segs).1; |segs'| == |segs| && x.id !in segs'[t]
  {
    TakenIsGone(segs[t], x.id);
  }

  lemma TakenIsGone(s: seq<int>, x: int)
    requires AtMostOnce(s, x) && x != TAKEN && FirstIndex(s, x) >= 0
    ensures x !in s[FirstIndex(s, x) := TAKEN]
  {
  }

  lemma StaysOnce(w: Topo, log': seq<Rec>, segs: seq<seq<int>>, segs': seq<seq<int>>, t: int, id: int)
    requires SegmentsKept(w, log', segs, segs') && 0 <= t < |segs| && AtMostOnce(segs[t], id) && id != TAKEN
    ensures AtMostOnce(segs'[t], id)
  {
    forall a, b | 0 <= a < b < |segs'[t]| && segs'[t][a] == id
      ensures segs'[t][b] != id
    {
      assert segs[t][a] == id;
    }
  }

  lemma {:induction false} MatchedTakes(w: Topo, log: seq<Rec>, segs: seq<seq<int>>, j: int, k: int, t: int)
    requires SegmentsFit(w.nC, w.nR, w.ctr, w.rtc, segs) && LogOk(w.nC, log) && 0 <= j < k <= |log|
    requires log[j].kind == Send && log[j].done && !(log[j].delcmp && log[j].delrep)
    requires Deletable(Matched(w.nC, w.nR, w.ctr, w.rtc, log, segs, k).0[j])
    requires 0 <= t < |segs| && CopyOf(w.nC, w.ctr, t, log[j].target) && AtMostOnce(segs[t], log[j].id)
    ensures log[j].id !in Matched(w.nC, w.nR, w.ctr, w.rtc, log, segs, k).1[t]
    decreases k
  {
    hide MatchOne, Paired, AtMostOnce;
    var m := Matched(w.nC, w.nR, w.ctr, w.rtc, log, segs, k - 1);
    if j + 1 < k {
      MatchedTakes(w, log, segs, j, k - 1, t);
      MatchNeverAdds(w, log[k - 1], m.1, t, log[j].id);
    } else {
      MatchFacts(w, log, segs, k - 1);
      StaysOnce(w, m.0, segs, m.1, t, log[j].id);
      MatchTakes(w, log[j], m.1, t);
    }
  }

  /** Process q drops, in this round, a send of this id to this rank. */
  ghost predicate Drops(w: Topo, sys: seq<Proc>, q: int, dest: int, id: int)
    requires Fits(w, sys) && 0 <= q < |sys|
  {
    exists j :: 0 <= j < |sys[q].log| == |RoundLog(w, sys, q)| && SendTo(sys[q].log[j], dest, id)
                && Deletable(RoundLog(w, sys, q)[j])
  }

  ghost predicate SendTo(x: Rec, dest: int, id: int) {
    x.kind == Send && x.target == dest && x.id == id
  }

  /** An id reported once comes back from a copy of the source exactly when that copy drops no send of it. */
  lemma ComesBackIff(w: Topo, sys: seq<Proc>, p: int, q: int, id: int)
    requires Fits(w, sys) && 0 <= p < |sys| && 0 <= q < |sys| && 0 <= id && OpenSends(sys[q].log)
    requires id in Segment(w.nC, w.ctr, sys[p].log, q) && AtMostOnce(Segment(w.nC, w.ctr, sys[p].log, q), id)
    ensures id in Back(w, sys, p)[q] <==> !Drops(w, sys, q, Logical(w, p), id)
  {
    if id !in Back(w, sys, p)[q] { MissingIdWasDropped(w, sys, p, q, id); }
    if Drops(w, sys, q, Logical(w, p), id) { DroppedIdIsMissing(w, sys, p, q, id); }
  }

  /** Marking leaves sends as matching left them. */
  lemma SendAfterRound(w: Topo, sys: seq<Proc>, q: int, j: int)
    requires Fits(w, sys) && 0 <= q < |sys| && 0 <= j < |sys[q].log| && sys[q].log[j].kind == Send
    ensures |RoundLog(w, sys, q)| == |sys[q].log| == |MatchedAt(w, sys, q).0|
    ensures RoundLog(w, sys, q)[j] == MatchedAt(w, sys, q).0[j] && RoundLog(w, sys, q)[j].done == sys[q].log[j].done
  {
    MatchFacts(w, sys[q].log, Incoming(w, sys, q), |sys[q].log|);
    hide Matched, Paired;
    assert MatchKept(w, sys[q].log[j], MatchedAt(w, sys, q).0[j], Incoming(w, sys, q));
  }

  lemma MissingIdWasDropped(w: Topo, sys: seq<Proc>, p: int, q: int, id: int)
    requires Fits(w, sys) && 0 <= p < |sys| && 0 <= q < |sys| && 0 <= id
    requires id in Segment(w.nC, w.ctr, sys[p].log, q) && id !in Back(w, sys, p)[q]
    ensures Drops(w, sys, q, Logical(w, p), id)
  {
    var segs, m := Incoming(w, sys, q), MatchedAt(w, sys, q);
    MatchFacts(w, sys[q].log, segs, |sys[q].log|);
    var i :| 0 <= i < |segs[p]| && segs[p][i] == id;
    assert m.1[p][i] in Back(w, sys, p)[q];
    assert TakenBy(w, m.0, p, id);
    var j :| 0 <= j < |m.0| && m.0[j].kind == Send && Deletable(m.0[j]) && m.0[j].id == id
             && 0 <= m.0[j].target < |w.ctr| && CopyOf(w.nC, w.ctr, p, m.0[j].target);
    CopyIsLogical(w, p, m.0[j].target);
    RoundRecord(w, sys, q, j);
    assert MatchKept(w, sys[q].log[j], m.0[j], segs);
    assert RoundLog(w, sys, q)[j] == m.0[j];
    assert SendTo(sys[q].log[j], Logical(w, p), id);
  }

  lemma DroppedIdIsMissing(w: Topo, sys: seq<Proc>, p: int, q: int, id: int)
    requires Fits(w, sys) && 0 <= p < |sys| && 0 <= q < |sys| && 0 <= id && OpenSends(sys[q].log)
    requires AtMostOnce(Segment(w.nC, w.ctr, sys[p].log, q), id) && Drops(w, sys, q, Logical(w, p), id)
    ensures id !in Back(w, sys, p)[q]
  {
    CopyIsLogical(w, p, Logical(w, p));
    hide RoundLog, Paired, Matched, AtMostOnce, Segment;
    var log, segs := sys[q].log, Incoming(w, sys, q);
    var j :| 0 <= j < |log| == |RoundLog(w, sys, q)| && SendTo(log[j], Logical(w, p), id)
             && Deletable(RoundLog(w, sys, q)[j]);
    SendAfterRound(w, sys, q, j);
    MatchedTakes(w, log, segs, j, |log|, p);
  }

  /** The id of receipt i comes back from process q. */
  ghost predicate ComesBack(w: Topo, sys: seq<Proc>, p: int, id: int, q: int)
    requires Fits(w, sys) && 0 <= p < |sys| && 0 <= q < |sys|
  {
    id in Back(w, sys, p)[q]
  }

  lemma MarkedIff(w: Topo, sys: seq<Proc>, p: int, i: int)
    requires Fits(w, sys) && 0 <= p < |sys| && 0 <= i < |sys[p].log|
    requires sys[p].log[i].kind == Recv && sys[p].log[i].done
    ensures |RoundLog(w, sys, p)| == |sys[p].log| && 0 <= sys[p].log[i].target < w.nC
    ensures var x := sys[p].log[i];
      Deletable(RoundLog(w, sys, p)[i]) <==>
        && (x.delcmp || !ComesBack(w, sys, p, x.id, x.target))
        && (x.delrep || w.ctr[x.target] == NONE || !ComesBack(w, sys, p, x.id, w.nC + w.ctr[x.target]))
  {
    RoundRecord(w, sys, p, i);
    hide RoundLog;
    assert Reported(sys[p].log[i]);
  }

  lemma ReceiptComesBackIff(w: Topo, sys: seq<Proc>, p: int, i: int, q: int)
    requires Fits(w, sys) && 0 <= p < |sys| && 0 <= i < |sys[p].log| && OnlyOne(sys[p].log, i)
    requires sys[p].log[i].kind == Recv && sys[p].log[i].done
    requires 0 <= sys[p].log[i].target < w.nC && 0 <= q < |sys| && CopyOf(w.nC, w.ctr, q, sys[p].log[i].target)
    requires OpenSends(sys[q].log)
    ensures ComesBack(w, sys, p, sys[p].log[i].id, q) <==> !Drops(w, sys, q, Logical(w, p), sys[p].log[i].id)
  {
    hide Drops, OpenSends, OnlyOne, Segment;
    ReportedInSegment(w, sys, p, i, q);
    ReportedOnce(w, sys, p, i, q);
    ComesBackIff(w, sys, p, q, sys[p].log[i].id);
  }

  /** A completed receipt that is the only one of its source and id is dropped in a round exactly when, for each copy of
      its source, the receipt was marked before or the copy drops its send in this round. */
  lemma ReceiptDroppedIff(w: Topo, sys: seq<Proc>, p: int, i: int)
    requires Fits(w, sys) && 0 <= p < |sys| && 0 <= i < |sys[p].log| && OnlyOne(sys[p].log, i)
    requires sys[p].log[i].kind == Recv && sys[p].log[i].done
    requires forall q :: 0 <= q < |sys| ==> OpenSends(sys[q].log)
    ensures |RoundLog(w, sys, p)| == |sys[p].log| && 0 <= sys[p].log[i].target < w.nC
    ensures var x := sys[p].log[i];
      Deletable(RoundLog(w, sys, p)[i]) <==>
        && (x.delcmp || Drops(w, sys, x.target, Logical(w, p), x.id))
        && (x.delrep || w.ctr[x.target] == NONE || Drops(w, sys, w.nC + w.ctr[x.target], Logical(w, p), x.id))
  {
    var x := sys[p].log[i];
    MarkedIff(w, sys, p, i);
    hide RoundLog, Back, OpenSends, OnlyOne, LogOk, Drops, Deletable;
    ReceiptComesBackIff(w, sys, p, i, x.target);
    if w.ctr[x.target] != NONE { ReceiptComesBackIff(w, sys, p, i, w.nC + w.ctr[x.target]); }
  }

  lemma DroppedIsGone(w: Topo, sys: seq<Proc>, p: int, i: int)
    requires Fits(w, sys) && 0 <= p < |sys| && 0 <= i < |sys[p].log| && OnlyOne(sys[p].log, i)
    ensures |RoundLog(w, sys, p)| == |sys[p].log| && |Round(w, sys)| == |sys|
    ensures var x := sys[p].log[i];
      Deletable(RoundLog(w, sys, p)[i]) <==> !Has(Round(w, sys)[p].log, x.kind, x.target, x.id)
  {
    var x, l, now := sys[p].log[i], RoundLog(w, sys, p), Round(w, sys)[p].log;
    RoundRecord(w, sys, p, i);
    PrunedHolds(l, l[i]);
    if k :| 0 <= k < |now| && now[k].kind == x.kind && now[k].target == x.target && now[k].id == x.id {
      PrunedHolds(l, now[k]);
      var j :| 0 <= j < |l| && l[j] == now[k];
      RoundRecord(w, sys, p, j);
    }
    if !Deletable(l[i]) {
      var k :| 0 <= k < |now| && now[k] == l[i];
      assert now[k].kind == x.kind && now[k].target == x.target && now[k].id == x.id;
    }
  }

  lemma DropsIff(w: Topo, sys: seq<Proc>, q: int, dest: int, id: int)
    requires Fits(w, sys) && 0 <= q < |sys| && OpenSends(sys[q].log)
    ensures |Round(w, sys)| == |sys|
    ensures Drops(w, sys, q, dest, id) <==>
      Has(sys[q].log, Send, dest, id) && !Has(Round(w, sys)[q].log, Send, dest, id)
  {
    var log := sys[q].log;
    forall j | 0 <= j < |log| && SendTo(log[j], dest, id)
      ensures |RoundLog(w, sys, q)| == |log| && OnlyOne(log, j)
      ensures Deletable(RoundLog(w, sys, q)[j]) <==> !Has(Round(w, sys)[q].log, Send, dest, id)
    {
      SameLength(w, sys, q);
      DroppedIsGone(w, sys, q, j);
    }
    if j :| 0 <= j < |log| && log[j].kind == Send && log[j].target == dest && log[j].id == id {
      assert SendTo(log[j], dest, id);
    }
  }

  ghost predicate SendGone(w: Topo, sys: seq<Proc>, q: int, dest: int, id: int)
    requires Fits(w, sys) && 0 <= q < |sys|
  {
    Has(sys[q].log, Send, dest, id) && !Has(Round(w, sys)[q].log, Send, dest, id)
  }

  /** A completed, unmarked receipt, the only one of its source and id, is gone after a round exactly when every copy of
      its source gets rid of the send in the same round. */
  lemma ReceiptGoneIffSendsGone(w: Topo, sys: seq<Proc>, p: int, i: int)
    requires Fits(w, sys) && 0 <= p < |sys| && 0 <= i < |sys[p].log| && OnlyOne(sys[p].log, i)
    requires sys[p].log[i].kind == Recv && sys[p].log[i].done && !sys[p].log[i].delcmp && !sys[p].log[i].delrep
    requires forall q :: 0 <= q < |sys| ==> OpenSends(sys[q].log)
    ensures |Round(w, sys)| == |sys| && 0 <= sys[p].log[i].target < w.nC
    ensures var x := sys[p].log[i];
      !Has(Round(w, sys)[p].log, Recv, x.target, x.id) <==>
        forall q :: 0 <= q < |sys| && CopyOf(w.nC, w.ctr, q, x.target) ==> SendGone(w, sys, q, Logical(w, p), x.id)
  {
    hide Has, Drops, Round, RoundLog, OpenSends, OnlyOne, LogOk, Logical, Deletable;
    var x := sys[p].log[i];
    ReceiptDroppedIff(w, sys, p, i);
    DroppedIsGone(w, sys, p, i);
    DropsIff(w, sys, x.target, Logical(w, p), x.id);
    assert CopyOf(w.nC, w.ctr, x.target, x.target);
    if w.ctr[x.target] != NONE {
      var r := w.nC + w.ctr[x.target];
      DropsIff(w, sys, r, Logical(w, p), x.id);
      assert CopyOf(w.nC, w.ctr, r, x.target);
    }
  }

  /** Every copy of rank c holds a completed receive of this source and id. */
  ghost predicate ReceivedByAll(w: Topo, sys: seq<Proc>, c: int, source: int, id: int)
    requires Fits(w, sys) && 0 <= c < w.nC
  {
    forall d :: 0 <= d < |sys| && CopyOf(w.nC, w.ctr, d, c) ==> HasReceipt(sys, d, source, id)
  }

  /** A round removes a send exactly when it is completed and every copy of its destination has received it. */
  lemma SendGoneIffReceived(w: Topo, sys: seq<Proc>, q: int, dest: int, id: int)
    requires Fits(w, sys) && 0 <= q < |sys| && OpenSends(sys[q].log) && 0 <= dest < w.nC
    ensures |Round(w, sys)| == |sys|
    ensures SendGone(w, sys, q, dest, id) <==>
      HasDone(sys[q].log, Send, dest, id) && ReceivedByAll(w, sys, dest, Logical(w, q), id)
  {
    DropsIff(w, sys, q, dest, id);
    var log := sys[q].log;
    hide Round, RoundLog;
    forall j | 0 <= j < |log| && SendTo(log[j], dest, id) && log[j].done
      ensures |RoundLog(w, sys, q)| == |log|
      ensures Deletable(RoundLog(w, sys, q)[j]) <==> ReceivedByAll(w, sys, dest, Logical(w, q), id)
    {
      SendDroppedIffReceived(w, sys, q, j);
    }
    if Drops(w, sys, q, dest, id) {
      var j :| 0 <= j < |log| == |RoundLog(w, sys, q)| && SendTo(log[j], dest, id)
               && Deletable(RoundLog(w, sys, q)[j]);
      RoundRecord(w, sys, q, j);
    }
    if HasDone(log, Send, dest, id) {
      var j :| 0 <= j < |log| && log[j].kind == Send && log[j].target == dest && log[j].id == id && log[j].done;
      assert SendTo(log[j], dest, id);
    }
  }

  /** When a message is forgotten.  A completed, unmarked receipt, the only one of its source and id, is gone after a
      round exactly when every copy of the source has completed the send and every copy of this rank the receive. */
  lemma ReceiptGoneIffMessageDone(w: Topo, sys: seq<Proc>, p: int, i: int)
    requires Fits(w, sys) && 0 <= p < |sys| && 0 <= i < |sys[p].log| && OnlyOne(sys[p].log, i)
    requires sys[p].log[i].kind == Recv && sys[p].log[i].done && !sys[p].log[i].delcmp && !sys[p].log[i].delrep
    requires forall q :: 0 <= q < |sys| ==> OpenSends(sys[q].log)
    ensures |Round(w, sys)| == |sys| && 0 <= sys[p].log[i].target < w.nC
    ensures var x := sys[p].log[i];
      !Has(Round(w, sys)[p].log, Recv, x.target, x.id) <==>
        && (forall q :: 0 <= q < |sys| && CopyOf(w.nC, w.ctr, q, x.target) ==>
              HasDone(sys[q].log, Send, Logical(w, p), x.id))
        && ReceivedByAll(w, sys, Logical(w, p), x.target, x.id)
  {
    var x := sys[p].log[i];
    ReceiptGoneIffSendsGone(w, sys, p, i);
    hide Round, Has, HasDone, ReceivedByAll, SendGone;
    forall q | 0 <= q < |sys| && CopyOf(w.nC, w.ctr, q, x.target)
      ensures SendGone(w, sys, q, Logical(w, p), x.id) <==>
        HasDone(sys[q].log, Send, Logical(w, p), x.id) && ReceivedByAll(w, sys, Logical(w, p), x.target, x.id)
    {
      CopyIsLogical(w, q, x.target);
      SendGoneIffReceived(w, sys, q, Logical(w, p), x.id);
    }
    assert CopyOf(w.nC, w.ctr, x.target, x.target);
  }

  lemma RoundSettled(w: Topo, sys: seq<Proc>)
    requires Fits(w, sys)
    ensures |Round(w, sys)| == |sys|
    ensures forall q :: 0 <= q < |sys| ==>
              Round(w, sys)[q] == RoundProc(w, sys, q) && sys[q].settled <= Round(w, sys)[q].settled
  {
  }

  lemma BackFits(w: Topo, sys: seq<Proc>, p: int)
    requires Fits(w, sys) && 0 <= p < |sys|
    ensures |Back(w, sys, p)| == w.nC + w.nR
  {
  }

  lemma RoundRecvBacked(w: Topo, sys: seq<Proc>, p: int, i: int)
    requires Safe(w, sys) && 0 <= p < |sys| && 0 <= i < |sys[p].log| && sys[p].log[i].kind == Recv
    ensures |RoundLog(w, sys, p)| == |sys[p].log|
    ensures Fits(w, Round(w, sys)) && RecvBacked(w, Round(w, sys), p, RoundLog(w, sys, p)[i])
  {
    hide RoundLog, Segment, Back, Round, RoundProc;
    RoundFits(w, sys);
    RoundRecord(w, sys, p, i);
    RoundSettled(w, sys);
    var x := sys[p].log[i];
    assert x in sys[p].log && ProcSafe(w, sys, p) && RecvBacked(w, sys, p, x);
    BackFits(w, sys, p);
    if Reported(x) {
      if x.id !in Back(w, sys, p)[x.target] {
        ReportedInSegment(w, sys, p, i, x.target);
        MissingIdWasSettled(w, sys, p, x.target, x.id);
      }
      if w.ctr[x.target] != NONE && x.id !in Back(w, sys, p)[w.nC + w.ctr[x.target]] {
        ReportedInSegment(w, sys, p, i, w.nC + w.ctr[x.target]);
        MissingIdWasSettled(w, sys, p, w.nC + w.ctr[x.target], x.id);
      }
    }
  }

  lemma RoundForgottenBacked(w: Topo, sys: seq<Proc>, p: int, s: int, id: int)
    requires Safe(w, sys) && 0 <= p < |sys| && (s, id) in RoundProc(w, sys, p).forgotten
    ensures Fits(w, Round(w, sys)) && SettledByAll(w, Round(w, sys), p, s, id)
  {
    hide RoundLog, Segment, Back, Round;
    RoundFits(w, sys);
    RoundSettled(w, sys);
    var l := RoundLog(w, sys, p);
    if (s, id) in sys[p].forgotten {
      assert ProcSafe(w, sys, p) && SettledByAll(w, sys, p, s, id);
    } else {
      var i :| 0 <= i < |l| && l[i].kind == Recv && Deletable(l[i]) && (l[i].target, l[i].id) == (s, id);
      SameLength(w, sys, p);
      RoundRecord(w, sys, p, i);
      RoundRecvBacked(w, sys, p, i);
    }
  }

  lemma SameLength(w: Topo, sys: seq<Proc>, p: int)
    requires Fits(w, sys) && 0 <= p < |sys|
    ensures |RoundLog(w, sys, p)| == |sys[p].log|
  {
  }

  lemma RoundSendOpen(w: Topo, sys: seq<Proc>, p: int, i: int)
    requires Safe(w, sys) && 0 <= p < |sys| && 0 <= i < |sys[p].log|
    ensures |RoundLog(w, sys, p)| == |sys[p].log|
    ensures !Deletable(RoundLog(w, sys, p)[i]) ==> SendOpen(RoundProc(w, sys, p).settled, RoundLog(w, sys, p)[i])
  {
    RoundRecord(w, sys, p, i);
    var l := RoundLog(w, sys, p);
    var x := sys[p].log[i];
    assert x in sys[p].log && ProcSafe(w, sys, p) && SendOpen(sys[p].settled, x);
    forall j | 0 <= j < |l| && l[j].kind == Send && Deletable(l[j]) && x.kind == Send && !Deletable(l[i])
      ensures (l[j].target, l[j].id) != (x.target, x.id)
    {
      RoundRecord(w, sys, p, j);
      assert i < j || j < i;
    }
  }

  lemma {:induction false} PrunedUnique(log: seq<Rec>)
    requires UniqueSends(log)
    ensures UniqueSends(Pruned(log))
  {
    if log != [] {
      var k := |log| - 1;
      PrunedUnique(log[..k]);
      var front := Pruned(log[..k]);
      forall i | 0 <= i < |front| && front[i].kind == Send && log[k].kind == Send
        ensures (front[i].target, front[i].id) != (log[k].target, log[k].id)
      {
        PrunedHolds(log[..k], front[i]);
      }
    }
  }

  lemma RoundUnique(w: Topo, sys: seq<Proc>, p: int)
    requires Safe(w, sys) && 0 <= p < |sys|
    ensures UniqueSends(Pruned(RoundLog(w, sys, p)))
  {
    var l := RoundLog(w, sys, p);
    SameLength(w, sys, p);
    assert ProcSafe(w, sys, p);
    forall i, j | 0 <= i < j < |l| && l[i].kind == Send && l[j].kind == Send
      ensures (l[i].target, l[i].id) != (l[j].target, l[j].id)
    {
      RoundRecord(w, sys, p, i);
      RoundRecord(w, sys, p, j);
    }
    PrunedUnique(l);
  }

  lemma RoundKeepsProcSafe(w: Topo, sys: seq<Proc>, p: int)
    requires Safe(w, sys) && 0 <= p < |sys|
    ensures Fits(w, Round(w, sys)) && ProcSafe(w, Round(w, sys), p)
  {
    hide RoundLog, RecvBacked, SettledByAll, SendOpen, UniqueSends, ProcSafe;
    RoundFits(w, sys);
    var sys' := Round(w, sys);
    var l := RoundLog(w, sys, p);
    SameLength(w, sys, p);
    forall x | x in sys'[p].log
      ensures x.kind == Recv ==> RecvBacked(w, sys', p, x)
      ensures SendOpen(sys'[p].settled, x)
    {
      PrunedHolds(l, x);
      var i :| 0 <= i < |l| && l[i] == x;
      RoundRecord(w, sys, p, i);
      RoundSendOpen(w, sys, p, i);
      if x.kind == Recv { RoundRecvBacked(w, sys, p, i); }
    }
    forall k | k in sys'[p].forgotten
      ensures SettledByAll(w, sys', p, k.0, k.1)
    {
      assert k == (k.0, k.1);
      RoundForgottenBacked(w, sys, p, k.0, k.1);
    }
    RoundUnique(w, sys, p);
    ProcSafeFrom(w, sys', p);
  }

  lemma ProcSafeFrom(w: Topo, sys: seq<Proc>, p: int)
    requires Fits(w, sys) && 0 <= p < |sys|
    requires forall x :: x in sys[p].log && x.kind == Recv ==> RecvBacked(w, sys, p, x)
    requires forall k :: k in sys[p].forgotten ==> SettledByAll(w, sys, p, k.0, k.1)
    requires forall x :: x in sys[p].log ==> SendOpen(sys[p].settled, x)
    requires UniqueSends(sys[p].log)
    ensures ProcSafe(w, sys, p)
  {
  }

  lemma RoundKeepsSafe(w: Topo, sys: seq<Proc>)
    requires Safe(w, sys)
    ensures Safe(w, Round(w, sys))
  {
    RoundFits(w, sys);
    forall p | 0 <= p < |sys|
      ensures ProcSafe(w, Round(w, sys), p)
    {
      RoundKeepsProcSafe(w, sys, p);
    }
  }

  // ---- What the application does between rounds ----

  /** Records come, complete and are rewritten, but a record that carries a mark is left as it was,
      and a send never reuses a (destination, id) that its process already settled. */
  ghost predicate Application(w: Topo, sys: seq<Proc>, sys': seq<Proc>) {
    && Fits(w, sys) && Fits(w, sys')
    && forall p :: 0 <= p < |sys| ==>
        && sys'[p].settled == sys[p].settled && sys'[p].forgotten == sys[p].forgotten
        && UniqueSends(sys'[p].log)
        && forall x :: x in sys'[p].log ==>
             || x in sys[p].log
             || (!x.delcmp && !x.delrep && (x.kind == Send ==> (x.target, x.id) !in sys[p].settled))
  }

  lemma ApplicationKeepsSafe(w: Topo, sys: seq<Proc>, sys': seq<Proc>)
    requires Safe(w, sys) && Application(w, sys, sys')
    ensures Safe(w, sys')
  {
    forall p | 0 <= p < |sys'|
      ensures ProcSafe(w, sys', p)
    {
      assert ProcSafe(w, sys, p);
      forall x | x in sys'[p].log
        ensures x.kind == Recv ==> RecvBacked(w, sys', p, x)
        ensures SendOpen(sys'[p].settled, x)
      {
        if x in sys[p].log {
          assert SendOpen(sys[p].settled, x);
          assert x.kind == Recv ==> RecvBacked(w, sys, p, x);
        }
      }
      forall k | k in sys'[p].forgotten
        ensures SettledByAll(w, sys', p, k.0, k.1)
      {
        assert SettledByAll(w, sys, p, k.0, k.1);
      }
    }
  }

  // ---- Runs ----

  ghost predicate Step(w: Topo, sys: seq<Proc>, sys': seq<Proc>) {
    Application(w, sys, sys') || (Fits(w, sys) && sys' == Round(w, sys))
  }

  ghost predicate Run(w: Topo, states: seq<seq<Proc>>) {
    |states| > 0 && forall i :: 0 <= i < |states| - 1 ==> Step(w, states[i], states[i + 1])
  }

  lemma {:induction false} RunStaysSafe(w: Topo, states: seq<seq<Proc>>)
    requires Run(w, states) && Safe(w, states[0])
    ensures Safe(w, states[|states| - 1])
    decreases |states|
  {
    if |states| > 1 {
      var k := |states| - 2;
      assert states[..k + 1][|states[..k + 1]| - 1] == states[k];
      RunStaysSafe(w, states[..k + 1]);
      assert Step(w, states[k], states[k + 1]);
      if Application(w, states[k], states[k + 1]) {
        ApplicationKeepsSafe(w, states[k], states[k + 1]);
      } else {
        RoundKeepsSafe(w, states[k]);
      }
    }
  }

  /** The job starts with nothing marked, settled or forgotten. */
  ghost predicate Initial(w: Topo, sys: seq<Proc>) {
    Fits(w, sys) && forall p :: 0 <= p < |sys| ==> sys[p] == Proc([], {}, {})
  }

  /** After any number of rounds, with any application activity between them: if p has forgotten a
      message with this source and id, no copy of the source still holds the send. */
  lemma ForgottenIsNeverResent(w: Topo, states: seq<seq<Proc>>, p: int, s: int, id: int, q: int, x: Rec)
    requires Run(w, states) && Initial(w, states[0])
    requires var sys := states[|states| - 1];
      0 <= p < |sys| && 0 <= q < |sys| && (s, id) in sys[p].forgotten && x in sys[q].log
    ensures var sys := states[|states| - 1];
      && Fits(w, sys) && 0 <= s < w.nC
      && (CopyOf(w.nC, w.ctr, q, s) ==> !(x.kind == Send && x.target == Logical(w, p) && x.id == id))
  {
    RunStaysSafe(w, states);
    var sys := states[|states| - 1];
    assert ProcSafe(w, sys, p) && ProcSafe(w, sys, q);
    assert SettledByAll(w, sys, p, s, id) by { assert SettledByAll(w, sys, p, (s, id).0, (s, id).1); }
    assert SendOpen(sys[q].settled, x);
  }

  lemma SafeSendsAreOpen(w: Topo, sys: seq<Proc>, q: int)
    requires Safe(w, sys) && 0 <= q < |sys|
    ensures OpenSends(sys[q].log)
  {
    assert ProcSafe(w, sys, q);
    forall j | 0 <= j < |sys[q].log| && sys[q].log[j].kind == Send
      ensures !(sys[q].log[j].delcmp && sys[q].log[j].delrep)
    {
      assert SendOpen(sys[q].settled, sys[q].log[j]);
    }
  }

  /** After any run from an empty start, the next round forgets a completed receipt that no earlier round touched, and
      that is the only one of its source and id, exactly when all copies of both partners are done with the message. */
  lemma RunForgetsIffDone(w: Topo, states: seq<seq<Proc>>, p: int, i: int)
    requires Run(w, states) && Initial(w, states[0])
    requires var sys := states[|states| - 1]; 0 <= p < |sys| && 0 <= i < |sys[p].log| && OnlyOne(sys[p].log, i)
    requires var x := states[|states| - 1][p].log[i]; x.kind == Recv && x.done && !x.delcmp && !x.delrep
    ensures var sys := states[|states| - 1]; var x := sys[p].log[i];
      && Fits(w, sys) && |Round(w, sys)| == |sys| && 0 <= x.target < w.nC
      && (!Has(Round(w, sys)[p].log, Recv, x.target, x.id) <==>
            && (forall q :: 0 <= q < |sys| && CopyOf(w.nC, w.ctr, q, x.target) ==>
                  HasDone(sys[q].log, Send, Logical(w, p), x.id))
            && ReceivedByAll(w, sys, Logical(w, p), x.target, x.id))
  {
    RunStaysSafe(w, states);
    var sys := states[|states| - 1];
    hide ProcSafe, Round, Has, HasDone, ReceivedByAll, OpenSends, OnlyOne;
    forall q | 0 <= q < |sys|
      ensures OpenSends(sys[q].log)
    {
      SafeSendsAreOpen(w, sys, q);
    }
    ReceiptGoneIffMessageDone(w, sys, p, i);
  }
}
