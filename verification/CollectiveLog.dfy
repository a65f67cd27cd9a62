/** The log of collective calls: ordered insertion, the common cut, and what removal at the cut forgets. */
module CollectiveLog {

  /** `done` is the conjunction of all completion flags of the record; `bytes` is what its stored buffers count for,
      0 except for an allreduce. */
  datatype Coll = Coll(id: int, done: bool, bytes: int)

  /** Largest id first. */
  ghost predicate Descending(s: seq<Coll>) {
    forall i, j :: 0 <= i < j < |s| ==> s[i].id >= s[j].id
  }

  /** now is was with c behind every record whose id is at least its own and ahead of all others. */
  ghost predicate InsertedAt(was: seq<Coll>, now: seq<Coll>, c: Coll, k: int) {
    && 0 <= k <= |was| && now == was[..k] + [c] + was[k..]
    && (forall i :: 0 <= i < k ==> was[i].id >= c.id)
    && (forall i :: k <= i < |was| ==> was[i].id < c.id)
  }

  lemma InsertKeepsOrder(was: seq<Coll>, now: seq<Coll>, c: Coll, k: int)
    requires Descending(was) && InsertedAt(was, now, c, k)
    ensures Descending(now)
  {
    assert forall i :: 0 <= i < |now| ==> now[i] == if i < k then was[i] else if i == k then c else was[i - 1];
  }

  // ---- The cut ----

  ghost predicate LastDone(s: seq<Coll>, r: int) {
    && (forall i :: 0 <= i < |s| && s[i].done ==> s[i].id <= r)
    && (r != -1 ==> exists i :: 0 <= i < |s| && s[i].done && s[i].id == r)
  }

  ghost predicate Minimum(a: seq<int>, m: int) {
    m in a && forall i :: 0 <= i < |a| ==> m <= a[i]
  }

  /** The minimum over the gathered ids. */
  method FindCut(ids: seq<int>) returns (cut: int)
    requires |ids| > 0
    ensures Minimum(ids, cut)
  {
    cut := ids[0];
    for i := 0 to |ids|
      invariant cut in ids && forall k :: 0 <= k < i ==> cut <= ids[k]
    {
      if ids[i] < cut { cut := ids[i]; }
    }
  }

  /** Every process gathers the same ids, so every process cuts at the same place. */
  lemma SameCut(ids: seq<int>, m: int, n: int)
    requires Minimum(ids, m) && Minimum(ids, n)
    ensures m == n
  {
    var i :| 0 <= i < |ids| && ids[i] == n;
    assert m <= ids[i];
  }

  // ---- Marking and removal ----

  ghost function Marked(s: seq<Coll>, cut: int): (r: seq<Coll>)
    ensures |r| == |s|
  {
    seq(|s|, i requires 0 <= i < |s| => if s[i].id <= cut then s[i].(id := -1) else s[i])
  }

  ghost function Kept(s: seq<Coll>): seq<Coll> {
    if s == [] then []
    else Kept(s[..|s| - 1]) + if s[|s| - 1].id == -1 then [] else [s[|s| - 1]]
  }

  lemma {:induction false} KeptAll(s: seq<Coll>)
    requires forall i :: 0 <= i < |s| ==> s[i].id != -1
    ensures Kept(s) == s
  {
    if s != [] {
      KeptAll(s[..|s| - 1]);
      assert s == s[..|s| - 1] + [s[|s| - 1]];
    }
  }

  lemma {:induction false} KeptTail(s: seq<Coll>, k: int)
    requires 0 <= k <= |s| && forall i :: k <= i < |s| ==> s[i].id == -1
    ensures Kept(s) == Kept(s[..k])
  {
    if k < |s| {
      KeptTail(s[..|s| - 1], k);
      assert s[..|s| - 1][..k] == s[..k];
    } else {
      assert s[..k] == s;
    }
  }

  /** Marking at the cut and removing what is marked deletes exactly the suffix at or below the cut. */
  lemma RemovesSuffix(s: seq<Coll>, cut: int) returns (k: int)
    requires Descending(s) && cut >= -1
    ensures 0 <= k <= |s| && Kept(Marked(s, cut)) == s[..k]
    ensures forall i :: 0 <= i < |s| ==> (s[i].id <= cut <==> k <= i)
  {
    k := 0;
    while k < |s| && s[k].id > cut
      invariant 0 <= k <= |s| && forall i :: 0 <= i < k ==> s[i].id > cut
    {
      k := k + 1;
    }
    assert forall i :: k <= i < |s| ==> s[k].id >= s[i].id;
    var m := Marked(s, cut);
    KeptTail(m, k);
    assert m[..k] == s[..k];
    KeptAll(s[..k]);
  }

  lemma PrefixDescends(s: seq<Coll>, k: int)
    requires Descending(s) && 0 <= k <= |s|
    ensures Descending(s[..k])
  {
  }

  // ---- The bytes stored with the records ----

  /** The bytes of all stored buffers. */
  ghost function Bytes(s: seq<Coll>): int {
    if s == [] then 0 else Bytes(s[..|s| - 1]) + s[|s| - 1].bytes
  }

  lemma {:induction false} BytesAdd(s: seq<Coll>, t: seq<Coll>)
    ensures Bytes(s + t) == Bytes(s) + Bytes(t)
  {
    if t == [] {
      assert s + t == s;
    } else {
      BytesAdd(s, t[..|t| - 1]);
      assert (s + t)[..|s + t| - 1] == s + t[..|t| - 1];
    }
  }

  lemma InsertAddsBytes(was: seq<Coll>, now: seq<Coll>, c: Coll, k: int)
    requires InsertedAt(was, now, c, k)
    ensures Bytes(now) == Bytes(was) + c.bytes
  {
    BytesAdd(was[..k], was[k..]);
    assert was[..k] + was[k..] == was;
    BytesAdd(was[..k] + [c], was[k..]);
    BytesAdd(was[..k], [c]);
    assert [c][..0] == [];
  }

  lemma {:induction false} MarkedBytes(s: seq<Coll>, cut: int)
    ensures Bytes(Marked(s, cut)) == Bytes(s)
  {
    if s != [] {
      MarkedBytes(s[..|s| - 1], cut);
      assert Marked(s, cut)[..|s| - 1] == Marked(s[..|s| - 1], cut);
    }
  }

  class Log {
    var entries: seq<Coll>
    var stored: int

    /** Ordered insertion by walking from the newest record. */
    method Insert(c: Coll) returns (ghost k: int)
      requires Descending(entries)
      modifies this
      ensures InsertedAt(old(entries), entries, c, k) && Descending(entries)
      ensures stored - Bytes(entries) == old(stored) - Bytes(old(entries))
    {
      hide Bytes;
      k := InsertWalking(c);
      stored := stored + c.bytes;
      InsertAddsBytes(old(entries), entries, c, k);
    }

    method InsertWalking(c: Coll) returns (ghost k: int)
      requires Descending(entries)
      modifies this`entries
      ensures InsertedAt(old(entries), entries, c, k) && Descending(entries)
    {
      ghost var was := entries;
      if |entries| == 0 {
        entries := [c];
        return 0;
      }
      var t := 0;
      while c.id <= entries[t].id && t + 1 < |entries|
        invariant 0 <= t < |entries| && forall i :: 0 <= i < t ==> entries[i].id >= c.id
      {
        t := t + 1;
      }
      if c.id > entries[t].id {
        k := t;
        assert forall i :: t < i < |was| ==> was[t].id >= was[i].id;
        entries := entries[..t] + [c] + entries[t..];
      } else {
        k := |was|;
        entries := entries + [c];
        assert entries == was[..k] + [c] + was[k..];
      }
      InsertKeepsOrder(was, entries, c, k);
    }

    /** The id this process offers: its newest completed collective, or -1. */
    method LastCompleted() returns (r: int)
      requires Descending(entries) && forall i :: 0 <= i < |entries| ==> entries[i].id >= -1
      ensures LastDone(entries, r) && r >= -1
    {
      var t := 0;
      while t < |entries| && !entries[t].done
        invariant 0 <= t <= |entries| && forall i :: 0 <= i < t ==> !entries[i].done
      {
        t := t + 1;
      }
      if t == |entries| { return -1; }
      assert forall i :: t < i < |entries| ==> entries[t].id >= entries[i].id;
      return entries[t].id;
    }

    method Mark(cut: int)
      modifies this`entries
      ensures entries == Marked(old(entries), cut)
    {
      var t := 0;
      while t < |entries|
        invariant 0 <= t <= |entries| == |old(entries)|
        invariant entries[..t] == Marked(old(entries), cut)[..t] && entries[t..] == old(entries)[t..]
      {
        ghost var was := entries;
        assert entries[t] == entries[t..][0] == old(entries)[t];
        if entries[t].id <= cut { entries := entries[t := entries[t].(id := -1)]; }
        assert entries[..t + 1] == was[..t] + [entries[t]] && entries[t + 1..] == was[t..][1..];
        t := t + 1;
      }
    }

    method Prune()
      modifies this
      ensures entries == Kept(old(entries)) && stored - Bytes(entries) == old(stored) - Bytes(old(entries))
    {
      ghost var was, seen := entries, 0;
      var t := 0;
      while t < |entries|
        invariant 0 <= t <= |entries| && 0 <= seen <= |was| && |entries| - t == |was| - seen
        invariant entries[..t] == Kept(was[..seen]) && entries[t..] == was[seen..]
        invariant stored - Bytes(entries[..t]) == old(stored) - Bytes(was[..seen])
        decreases |entries| - t
      {
        assert entries[t] == entries[t..][0] == was[seen];
        assert was[..seen + 1][..seen] == was[..seen];
        ghost var rest := entries[t..][1..];
        assert rest == was[seen + 1..];
        if entries[t].id == -1 {
          stored := stored - entries[t].bytes;
          entries := entries[..t] + entries[t + 1..];
        } else {
          assert entries[..t + 1] == entries[..t] + [entries[t]] && entries[..t + 1][..t] == entries[..t];
          t := t + 1;
        }
        seen := seen + 1;
      }
      assert was[..seen] == was && entries[..t] == entries;
    }
  }

  // ---- All processes, over whole runs ----

  /** logs[p] is the log of process p; done[p] every collective it has completed; forgotten every id ever removed
      from a log. */
  datatype World = World(logs: seq<seq<Coll>>, issued: set<int>, done: seq<set<int>>, entered: seq<set<int>>,
                         forgotten: set<int>)

  ghost predicate Good(w: World) {
    && |w.logs| == |w.done| == |w.entered| > 0
    && (forall id :: id in w.issued ==> id >= 0)
    && (forall p :: 0 <= p < |w.logs| ==> GoodProcess(w, p))
  }

  ghost predicate GoodProcess(w: World, p: int)
    requires 0 <= p < |w.logs| == |w.done| == |w.entered|
  {
    && Descending(w.logs[p])
    && (forall i :: 0 <= i < |w.logs[p]| ==> w.logs[p][i].id in w.issued)
    && (forall i :: 0 <= i < |w.logs[p]| && w.logs[p][i].done ==> w.logs[p][i].id in w.done[p])
    && InOrder(w.issued, w.done[p])
    // nothing entered is lost unless every process has completed it
    && (forall id :: id in w.entered[p] ==> Holds(w.logs[p], id) || id in w.forgotten)
    && (forall id :: id in w.forgotten ==> id in w.done[p])
  }

  /** The process completed every collective issued before one it completed. */
  ghost predicate InOrder(issued: set<int>, done: set<int>) {
    done <= issued && forall a, b :: a in done && b in issued && b < a ==> b in done
  }

  ghost predicate Holds(s: seq<Coll>, id: int) {
    exists i :: 0 <= i < |s| && s[i].id == id
  }

  ghost predicate Cut(w: World, ids: seq<int>, cut: int) {
    && |ids| == |w.logs| && Minimum(ids, cut)
    && (forall p :: 0 <= p < |ids| ==> LastDone(w.logs[p], ids[p]) && ids[p] >= -1)
  }

  /** n processes, nothing issued. */
  ghost function Start(n: int): World
    requires n > 0
  {
    World(seq(n, i => []), {}, seq(n, i => {}), seq(n, i => {}), {})
  }

  lemma StartIsGood(n: int)
    requires n > 0
    ensures Good(Start(n))
  {
  }

  /** One step: a collective is issued with a fresh largest id; a process enters it in its log; a process
      completes it after all earlier ones; or all processes agree on a cut and remove what lies at or below it. */
  ghost predicate Step(v: World, w: World) {
    || (exists id :: Issues(v, w, id))
    || (exists p, k, c :: Enters(v, w, p, k, c))
    || (exists p, id :: Completes(v, w, p, id))
    || (exists ids, cut :: Rounds(v, w, ids, cut))
  }

  ghost predicate Issues(v: World, w: World, id: int) {
    w == v.(issued := v.issued + {id}) && id >= 0 && forall b :: b in v.issued ==> b < id
  }

  ghost predicate Enters(v: World, w: World, p: int, k: int, c: Coll) {
    && 0 <= p < |v.logs| == |v.entered| == |w.logs| && c.id in v.issued && !c.done
    && InsertedAt(v.logs[p], w.logs[p], c, k)
    && w == v.(logs := v.logs[p := w.logs[p]], entered := v.entered[p := v.entered[p] + {c.id}])
  }

  ghost function SetDone(s: seq<Coll>, id: int): (r: seq<Coll>)
    ensures |r| == |s|
  {
    seq(|s|, i requires 0 <= i < |s| => if s[i].id == id then s[i].(done := true) else s[i])
  }

  ghost predicate Completes(v: World, w: World, p: int, id: int) {
    && 0 <= p < |v.logs| == |v.done| && id in v.issued && (forall b :: b in v.issued && b < id ==> b in v.done[p])
    && w == v.(logs := v.logs[p := SetDone(v.logs[p], id)], done := v.done[p := v.done[p] + {id}])
  }

  /** What a process removes at the cut. */
  ghost function Dropped(s: seq<Coll>, cut: int): set<int> {
    set i | 0 <= i < |s| && s[i].id <= cut :: s[i].id
  }

  ghost predicate Rounds(v: World, w: World, ids: seq<int>, cut: int) {
    && Cut(v, ids, cut) && |w.logs| == |v.logs|
    && (forall p :: 0 <= p < |v.logs| ==> w.logs[p] == Kept(Marked(v.logs[p], cut)))
    && (forall id :: id in w.forgotten <==> id in v.forgotten || SomeDrop(v.logs, cut, id))
    && w == v.(logs := w.logs, forgotten := w.forgotten)
  }

  /** Every collective removed at the cut has been completed by every process. */
  lemma RemovedWasCompleted(v: World, ids: seq<int>, cut: int, p: int, id: int, q: int)
    requires Good(v) && Cut(v, ids, cut) && 0 <= p < |v.logs| && 0 <= q < |v.logs| && id in Dropped(v.logs[p], cut)
    ensures id in v.done[q]
  {
    hide Descending;
    assert GoodProcess(v, p) && GoodProcess(v, q);
    assert id in v.issued && id <= cut <= ids[q];
    var i :| 0 <= i < |v.logs[q]| && v.logs[q][i].done && v.logs[q][i].id == ids[q];
    assert ids[q] in v.done[q];
  }

  lemma RoundKeepsLog(v: World, w: World, ids: seq<int>, cut: int, p: int)
    requires Good(v) && Rounds(v, w, ids, cut) && 0 <= p < |v.logs|
    ensures Descending(w.logs[p])
    ensures forall i :: 0 <= i < |w.logs[p]| ==> i < |v.logs[p]| && w.logs[p][i] == v.logs[p][i]
    ensures forall id :: Holds(v.logs[p], id) ==> Holds(w.logs[p], id) || id in w.forgotten
  {
    assert GoodProcess(v, p);
    assert cut in ids;
    var s := v.logs[p];
    var k := RemovesSuffix(s, cut);
    PrefixDescends(s, k);
    forall id | Holds(s, id)
      ensures Holds(w.logs[p], id) || id in w.forgotten
    {
      var i :| 0 <= i < |s| && s[i].id == id;
      if i < k { assert w.logs[p][i].id == id; } else { assert id in Dropped(s, cut); }
    }
  }

  lemma RoundKeepsGood(v: World, w: World, ids: seq<int>, cut: int)
    requires Good(v) && Rounds(v, w, ids, cut)
    ensures Good(w)
  {
    hide Marked, Kept, Descending, Holds, Cut;
    forall p | 0 <= p < |w.logs|
      ensures GoodProcess(w, p)
    {
      assert GoodProcess(v, p);
      RoundKeepsLog(v, w, ids, cut, p);
      forall id | id in w.forgotten
        ensures id in w.done[p]
      {
        if id !in v.forgotten {
          var q :| 0 <= q < |v.logs| && id in Dropped(v.logs[q], cut);
          RemovedWasCompleted(v, ids, cut, q, id, p);
        }
      }
    }
  }

  lemma InsertHolds(was: seq<Coll>, now: seq<Coll>, c: Coll, k: int)
    requires InsertedAt(was, now, c, k)
    ensures forall id :: id == c.id || Holds(was, id) ==> Holds(now, id)
    ensures forall i :: 0 <= i < |now| ==> now[i] == c || now[i] in was
  {
    forall id | id == c.id || Holds(was, id)
      ensures Holds(now, id)
    {
      if id == c.id { assert now[k].id == id; }
      else {
        var i :| 0 <= i < |was| && was[i].id == id;
        assert now[if i < k then i else i + 1].id == id;
      }
    }
  }

  lemma EntersKeepsGood(v: World, w: World, p: int, k: int, c: Coll)
    requires Good(v) && Enters(v, w, p, k, c)
    ensures Good(w)
  {
    hide Descending, InsertedAt, Holds, InOrder;
    forall q | 0 <= q < |w.logs|
      ensures GoodProcess(w, q)
    {
      assert GoodProcess(v, q);
      if q == p {
        InsertKeepsOrder(v.logs[p], w.logs[p], c, k);
        InsertHolds(v.logs[p], w.logs[p], c, k);
      }
    }
  }

  lemma CompletesKeepsGood(v: World, w: World, p: int, id: int)
    requires Good(v) && Completes(v, w, p, id)
    ensures Good(w)
  {
    forall q | 0 <= q < |w.logs|
      ensures GoodProcess(w, q)
    {
      assert GoodProcess(v, q);
      if q == p {
        var was, now := v.logs[p], w.logs[p];
        assert forall i :: 0 <= i < |now| ==> now[i].id == was[i].id;
        forall b | b in w.entered[p]
          ensures Holds(now, b) || b in w.forgotten
        {
          if i :| 0 <= i < |was| && was[i].id == b { assert now[i].id == b; }
        }
      }
    }
  }

  lemma IssuesKeepsGood(v: World, w: World, id: int)
    requires Good(v) && Issues(v, w, id)
    ensures Good(w)
  {
    forall p | 0 <= p < |w.logs|
      ensures GoodProcess(w, p)
    {
      assert GoodProcess(v, p);
    }
  }

  lemma StepKeepsGood(v: World, w: World)
    requires Good(v) && Step(v, w)
    ensures Good(w)
  {
    hide Good, Issues, Enters, Completes, Rounds;
    if id :| Issues(v, w, id) { IssuesKeepsGood(v, w, id); }
    else if p, k, c :| Enters(v, w, p, k, c) { EntersKeepsGood(v, w, p, k, c); }
    else if p, id :| Completes(v, w, p, id) { CompletesKeepsGood(v, w, p, id); }
    else {
      var ids, cut :| Rounds(v, w, ids, cut);
      RoundKeepsGood(v, w, ids, cut);
    }
  }

  lemma {:induction false} RunStaysGood(run: seq<World>, n: int)
    requires 0 <= n < |run| && Good(run[0]) && forall t :: 0 <= t < n ==> Step(run[t], run[t + 1])
    ensures Good(run[n])
  {
    hide Step;
    if n > 0 {
      RunStaysGood(run, n - 1);
      assert Step(run[n - 1], run[n]);
      StepKeepsGood(run[n - 1], run[n]);
    }
  }

  /** Over every run from the start: what a process entered is still in its log, unless it was removed and every process
      has completed it. */
  lemma RunKeepsUnfinished(run: seq<World>, procs: int, n: int, p: int, id: int)
    requires procs > 0 && 0 <= n < |run| && run[0] == Start(procs)
    requires forall t :: 0 <= t < n ==> Step(run[t], run[t + 1])
    requires 0 <= p < |run[n].logs| && p < |run[n].entered| && id in run[n].entered[p]
    ensures Holds(run[n].logs[p], id) || FinishedByAll(run[n], id)
  {
    StartIsGood(procs);
    hide Step;
    RunStaysGood(run, n);
    assert GoodProcess(run[n], p);
    if id in run[n].forgotten {
      forall q | 0 <= q < |run[n].logs|
        ensures q < |run[n].done| && id in run[n].done[q]
      {
        assert GoodProcess(run[n], q);
      }
    }
  }

  ghost predicate FinishedByAll(w: World, id: int) {
    forall q :: 0 <= q < |w.logs| ==> q < |w.done| && id in w.done[q]
  }

  // ---- The code of a round, on all logs ----

  /** The logs are those of the processes of v, each its own object. */
  ghost predicate HeldBy(logs: seq<Log>, v: World)
    reads logs
  {
    && |logs| == |v.logs| && (forall i, j :: 0 <= i < j < |logs| ==> logs[i] != logs[j])
    && forall p :: 0 <= p < |logs| ==> logs[p].entries == v.logs[p]
  }

  method GatherIds(logs: seq<Log>, ghost v: World) returns (ids: seq<int>)
    requires Good(v) && HeldBy(logs, v)
    ensures |ids| == |v.logs| && forall p :: 0 <= p < |ids| ==> LastDone(v.logs[p], ids[p]) && ids[p] >= -1
  {
    hide LastDone, Descending;
    ids := [];
    for p := 0 to |logs|
      invariant |ids| == p && forall k :: 0 <= k < p ==> LastDone(v.logs[k], ids[k]) && ids[k] >= -1
    {
      assert GoodProcess(v, p);
      var id := logs[p].LastCompleted();
      ids := ids + [id];
    }
  }

  /** The counter has gone down by what was dropped since it was `stored` and the log was `was`. */
  ghost predicate BytesKept(log: Log, stored: int, was: seq<Coll>)
    reads log
  {
    log.stored - Bytes(log.entries) == stored - Bytes(was)
  }

  method CutAll(logs: seq<Log>, cut: int, ghost v: World)
    requires HeldBy(logs, v)
    modifies logs
    ensures forall p :: 0 <= p < |logs| ==>
      logs[p].entries == Kept(Marked(v.logs[p], cut)) && BytesKept(logs[p], old(logs[p].stored), v.logs[p])
  {
    hide Kept, Marked, Bytes;
    for p := 0 to |logs|
      invariant forall k :: 0 <= k < p ==> logs[k].entries == Kept(Marked(v.logs[k], cut))
      invariant forall k :: 0 <= k < p ==> BytesKept(logs[k], old(logs[k].stored), v.logs[k])
      invariant forall k :: p <= k < |logs| ==> logs[k].entries == v.logs[k] && logs[k].stored == old(logs[k].stored)
    {
      logs[p].Mark(cut);
      MarkedBytes(v.logs[p], cut);
      logs[p].Prune();
    }
  }

  /** Every process offers its newest completed collective, all take the minimum, and all mark and remove: that is a
      round. */
  method CutRound(logs: seq<Log>, ghost v: World) returns (ghost w: World, ghost ids: seq<int>, cut: int)
    requires Good(v) && HeldBy(logs, v)
    modifies logs
    ensures Rounds(v, w, ids, cut) && Good(w) && HeldBy(logs, w)
    ensures forall p :: 0 <= p < |logs| ==> BytesKept(logs[p], old(logs[p].stored), v.logs[p])
  {
    hide Kept, Marked, LastDone, GoodProcess, Minimum, Bytes;
    var offers := GatherIds(logs, v);
    cut := FindCut(offers);
    ids := offers;
    CutAll(logs, cut, v);
    w := v.(logs := seq(|v.logs|, p requires 0 <= p < |v.logs| => Kept(Marked(v.logs[p], cut))),
            forgotten := v.forgotten + AllDropped(v.logs, cut));
    RoundKeepsGood(v, w, ids, cut);
  }

  ghost predicate SomeDrop(logs: seq<seq<Coll>>, cut: int, id: int) {
    exists p :: 0 <= p < |logs| && id in Dropped(logs[p], cut)
  }

  ghost function AllDropped(logs: seq<seq<Coll>>, cut: int): (r: set<int>)
    ensures forall id :: id in r <==> SomeDrop(logs, cut, id)
  {
    if logs == [] then {} else
      AllDroppedStep(logs, cut);
      AllDropped(logs[..|logs| - 1], cut) + Dropped(logs[|logs| - 1], cut)
  }

  lemma AllDroppedStep(logs: seq<seq<Coll>>, cut: int)
    requires logs != []
    ensures forall id :: SomeDrop(logs, cut, id) <==>
      SomeDrop(logs[..|logs| - 1], cut, id) || id in Dropped(logs[|logs| - 1], cut)
  {
    hide Dropped;
    var k := |logs| - 1;
    var front := logs[..k];
    assert forall p :: 0 <= p < k ==> front[p] == logs[p];
    forall id
      ensures SomeDrop(logs, cut, id) <==> SomeDrop(front, cut, id) || id in Dropped(logs[k], cut)
    {
      if p :| 0 <= p < |logs| && id in Dropped(logs[p], cut) {
        if p < k { assert id in Dropped(front[p], cut); }
      }
      if p :| 0 <= p < |front| && id in Dropped(front[p], cut) { assert id in Dropped(logs[p], cut); }
    }
  }

  // ---- Completion out of order ----

  /** In the log, nothing unfinished is older than something finished. */
  ghost predicate FinishedInOrder(s: seq<Coll>) {
    forall i, j :: 0 <= i < |s| && 0 <= j < |s| && s[i].done && s[j].id <= s[i].id ==> s[j].done
  }

  /** A process may agree to every cut up to the id it offers exactly when it finished its collectives in order. */
  lemma OfferIsSafeIff(s: seq<Coll>, r: int)
    requires LastDone(s, r) && forall i :: 0 <= i < |s| ==> s[i].id >= 0
    ensures (forall j :: 0 <= j < |s| && s[j].id <= r ==> s[j].done) <==> FinishedInOrder(s)
  {
    if FinishedInOrder(s) {
      forall j | 0 <= j < |s| && s[j].id <= r
        ensures s[j].done
      {
        var i :| 0 <= i < |s| && s[i].done && s[i].id == r;
      }
    }
  }

  /** Two processes, the first with collective 2 finished before collective 1: both agree to the cut 2,
      and collective 1 is removed although the first process has not finished it. */
  lemma OutOfOrderLosesOne()
    ensures var a, b := [Coll(2, true, 0), Coll(1, false, 0)], [Coll(2, true, 0), Coll(1, true, 0)];
      && Descending(a) && Descending(b) && LastDone(a, 2) && LastDone(b, 2) && Minimum([2, 2], 2)
      && Kept(Marked(a, 2)) == []
  {
    var a, b := [Coll(2, true, 0), Coll(1, false, 0)], [Coll(2, true, 0), Coll(1, true, 0)];
    assert a[0].done && a[0].id == 2 && b[0].done && b[0].id == 2;
    assert [2, 2][0] == 2;
    var k := RemovesSuffix(a, 2);
    assert a[0].id <= 2;
  }
}
