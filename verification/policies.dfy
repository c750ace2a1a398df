/** What each policy's dispatch rule guarantees about the process it serves:
    FCFS serves in order of arrival (ties by index) and never preempts, SJF
    never preempts and, when the CPU is free, picks a ready process with the
    smallest total CPU time, and the code's SRT serves the queued process
    with the least remaining time and sends a preempted process to the tail
    without ever comparing it with the queue. */
module Policies {
  import opened Registry
  import opened ReadyQueue
  import opened Engine

  // ---------------------------------------------------------------------
  // Non-preemption
  // ---------------------------------------------------------------------

  /** FCFS and SJF only dispatch when the CPU is free: a process that holds
      the CPU keeps it for the next tick. */
  lemma NonPreemptive(p: Policy, s: State)
    requires Inv(s) && p != SRT && s.cur >= 0
    ensures Served(p, s) == s.cur
    ensures Dispatched(p, s).0 == Admitted(s)
  {
    DispatchedIs(p, s);
  }

  // ---------------------------------------------------------------------
  // FCFS: first come, first served
  // ---------------------------------------------------------------------

  /** Process a comes before process b in first-come order: it arrived on an
      earlier tick, or on the same tick with a smaller index (the arrival
      scan runs in index order). */
  ghost predicate Earlier(rows: seq<Row>, a: int, b: int)
    requires 0 <= a < |rows| && 0 <= b < |rows|
  {
    rows[a].arrival < rows[b].arrival || (rows[a].arrival == rows[b].arrival && a < b)
  }

  /** The processes of line are row indices in strict first-come order. */
  ghost predicate InArrivalOrder(rows: seq<Row>, line: seq<int>)
  {
    && (forall k :: 0 <= k < |line| ==> 0 <= line[k] < |rows|)
    && (forall a, b :: 0 <= a < b < |line| ==> Earlier(rows, line[a], line[b]))
  }

  /** The processes waiting for or holding the CPU, the current one first. */
  ghost function Line(cur: int, queue: seq<int>): seq<int>
  {
    (if cur >= 0 then [cur] else []) + queue
  }

  /** Two ordered lines whose elements are all in order across them
      concatenate to an ordered line. */
  lemma OrderedConcat(rows: seq<Row>, x: seq<int>, y: seq<int>)
    requires InArrivalOrder(rows, x) && InArrivalOrder(rows, y)
    requires forall a, b :: 0 <= a < |x| && 0 <= b < |y| ==> Earlier(rows, x[a], y[b])
    ensures InArrivalOrder(rows, x + y)
  {
    forall a, b | 0 <= a < b < |x + y|
      ensures Earlier(rows, (x + y)[a], (x + y)[b])
    {
      if b < |x| {
        assert (x + y)[a] == x[a] && (x + y)[b] == x[b];
      } else if a >= |x| {
        assert (x + y)[a] == y[a - |x|] && (x + y)[b] == y[b - |x|];
      } else {
        assert (x + y)[a] == x[a] && (x + y)[b] == y[b - |x|];
      }
    }
  }

  /** The order only depends on the arrival column. */
  lemma OrderSameArrivals(rows: seq<Row>, rows': seq<Row>, line: seq<int>)
    requires InArrivalOrder(rows, line)
    requires |rows'| == |rows|
    requires forall i :: 0 <= i < |rows| ==> rows'[i].arrival == rows[i].arrival
    ensures InArrivalOrder(rows', line)
  {
  }

  /** A line that is ordered stays ordered when its head leaves. */
  lemma OrderedTail(rows: seq<Row>, line: seq<int>)
    requires InArrivalOrder(rows, line) && line != []
    ensures InArrivalOrder(rows, line[1..])
  {
  }

  /** Appending the processes that arrive at tick t to an ordered line of
      processes that all arrived earlier keeps it ordered, since the arrival
      scan appends in index order. */
  lemma AppendArrivalsKeepsOrder(rows: seq<Row>, t: int, x: seq<int>)
    requires InArrivalOrder(rows, x)
    requires forall k :: 0 <= k < |x| ==> rows[x[k]].arrival < t
    ensures InArrivalOrder(rows, x + Arrivals(rows, t, |rows|))
  {
    var a := Arrivals(rows, t, |rows|);
    ArrivalsIncreasing(rows, t, |rows|);
    assert forall k :: 0 <= k < |a| ==> a[k] in a;
    OrderedConcat(rows, x, a);
  }

  /** Every process in the line has arrived before tick t and is unfinished. */
  lemma LineReady(s: State)
    requires Inv(s)
    ensures forall k :: 0 <= k < |Line(s.cur, s.queue)| ==> Ready(s.rows, Line(s.cur, s.queue)[k], s.t)
  {
    var x := Line(s.cur, s.queue);
    forall k | 0 <= k < |x|
      ensures Ready(s.rows, x[k], s.t)
    {
      if s.cur >= 0 && k == 0 {
      } else {
        var off := if s.cur >= 0 then 1 else 0;
        assert x[k] == s.queue[k - off];
      }
    }
  }

  /** The arrival scan keeps the line ordered: every process already in the
      line arrived before tick t, and the newcomers all arrive at t and are
      appended in index order. */
  lemma AdmissionKeepsOrder(s: State)
    requires Inv(s) && InArrivalOrder(s.rows, Line(s.cur, s.queue))
    ensures InArrivalOrder(s.rows, Line(s.cur, Admitted(s)))
  {
    var x := Line(s.cur, s.queue);
    LineReady(s);
    AppendArrivalsKeepsOrder(s.rows, s.t, x);
    assert Line(s.cur, Admitted(s)) == x + Arrivals(s.rows, s.t, |s.rows|);
  }

  /** FCFS dispatch does not reorder the line: taking the head of the queue
      onto a free CPU leaves the same sequence of processes. */
  lemma FcfsDispatchKeepsLine(s: State)
    requires Inv(s)
    ensures Line(Dispatched(FCFS, s).1, Dispatched(FCFS, s).0) == Line(s.cur, Admitted(s))
  {
    DispatchedIs(FCFS, s);
    var q := Admitted(s);
    if s.cur < 0 && q != [] {
      assert q == [q[0]] + q[1..];
    }
  }

  /** The FCFS line stays in first-come order from tick to tick. */
  lemma FcfsTickKeepsOrder(s: State)
    requires Inv(s) && InArrivalOrder(s.rows, Line(s.cur, s.queue))
    ensures InArrivalOrder(Tick(FCFS, s).rows, Line(Tick(FCFS, s).cur, Tick(FCFS, s).queue))
  {
    AdmissionKeepsOrder(s);
    FcfsDispatchKeepsLine(s);
    TickServesOne(FCFS, s);
    var d := Dispatched(FCFS, s);
    var s' := Tick(FCFS, s);
    var line := Line(d.1, d.0);
    assert InArrivalOrder(s.rows, line);
    OrderSameArrivals(s.rows, s'.rows, line);
    assert s'.queue == d.0;
    if d.1 >= 0 && s'.cur < 0 {
      OrderedTail(s'.rows, line);
      assert line[1..] == d.0;
    }
  }

  /** Before the first tick the line is empty and trivially ordered. */
  lemma FcfsStartOrdered(rows: seq<Row>)
    ensures InArrivalOrder(rows, Line(Start(rows).cur, Start(rows).queue))
  {
  }

  /** The head of an ordered line comes before everything queued behind it. */
  lemma HeadIsEarliest(rows: seq<Row>, c: int, q: seq<int>, i: int)
    requires 0 <= c < |rows| && 0 <= i < |rows|
    requires InArrivalOrder(rows, Line(c, q)) && i in q
    ensures Earlier(rows, c, i)
  {
    var k :| 0 <= k < |q| && q[k] == i;
    assert Line(c, q)[0] == c && Line(c, q)[k + 1] == i;
  }

  /** A ready process other than the one on the CPU is in the queue. */
  lemma ReadyIsQueued(rows: seq<Row>, q: seq<int>, c: int, t: int, i: int)
    requires PoolExact(rows, q, c, t) && Ready(rows, i, t) && i != c
    ensures i in q
  {
    assert Pool(q, c)[i] == 1;
    assert i in multiset(q);
  }

  /** With the line in first-come order, the process FCFS serves came before
      every other process that is ready at that tick: FIFO service. */
  lemma FcfsServesEarliest(s: State)
    requires Inv(s) && InArrivalOrder(s.rows, Line(s.cur, s.queue))
    ensures var c := Served(FCFS, s);
      c >= 0 ==> forall i :: Ready(s.rows, i, s.t + 1) && i != c ==> Earlier(s.rows, c, i)
  {
    AdmissionKeepsOrder(s);
    FcfsDispatchKeepsLine(s);
    DispatchedPool(FCFS, s);
    var d := Dispatched(FCFS, s);
    if d.1 >= 0 {
      forall i | Ready(s.rows, i, s.t + 1) && i != d.1
        ensures Earlier(s.rows, d.1, i)
      {
        ReadyIsQueued(s.rows, d.0, d.1, s.t + 1, i);
        HeadIsEarliest(s.rows, d.1, d.0, i);
      }
    }
  }

  // ---------------------------------------------------------------------
  // SJF: shortest job first
  // ---------------------------------------------------------------------

  /** When the CPU is free and some process is ready, SJF serves the first
      queued process with the smallest total CPU time, and no ready process
      needs less CPU time in total. */
  lemma SjfPicksShortest(s: State)
    requires Inv(s) && s.cur < 0 && Admitted(s) != []
    ensures (AdmitPool(s); var c := Served(SJF, s);
      && c == Admitted(s)[FirstMin(s.rows, Admitted(s), TotalTime)]
      && Dispatched(SJF, s).0 == RemoveFirstOccurrence(Admitted(s), c)
      && forall i :: Ready(s.rows, i, s.t + 1) ==> s.rows[c].total <= s.rows[i].total)
  {
    AdmitPool(s);
    DispatchedIs(SJF, s);
    var q := Admitted(s);
    FirstMinIsFirstMinimum(s.rows, q, TotalTime);
    forall i | Ready(s.rows, i, s.t + 1)
      ensures s.rows[Served(SJF, s)].total <= s.rows[i].total
    {
      assert Pool(q, s.cur)[i] == 1;
      assert i in multiset(q);
      var k :| 0 <= k < |q| && q[k] == i;
    }
  }

  // ---------------------------------------------------------------------
  // SRT as the code has it
  // ---------------------------------------------------------------------

  /** With a non-empty queue after admission, SRT serves the first queued
      process with the least remaining time, which no queued process
      undercuts; a different process that held the CPU goes to the tail. */
  lemma SrtServesLeastQueued(s: State)
    requires Inv(s) && Admitted(s) != []
    ensures (AdmitPool(s); var c := Served(SRT, s);
      && c == Admitted(s)[FirstMin(s.rows, Admitted(s), RemainingTime)]
      && (forall k :: 0 <= k < |Admitted(s)| ==> s.rows[c].remaining <= s.rows[Admitted(s)[k]].remaining)
      && Dispatched(SRT, s).0 ==
           RemoveFirstOccurrence(Admitted(s), c) + (if s.cur >= 0 then [s.cur] else []))
  {
    AdmitPool(s);
    DispatchedIs(SRT, s);
    FirstMinIsFirstMinimum(s.rows, Admitted(s), RemainingTime);
  }

  /** With nothing queued after admission, SRT keeps the current process. */
  lemma SrtKeepsCurrentWhenQueueEmpty(s: State)
    requires Inv(s) && Admitted(s) == []
    ensures Served(SRT, s) == s.cur
  {
    DispatchedIs(SRT, s);
  }

  /** The running process is never compared with the queue: a running
      process with 1 unit left is preempted by a queued process with 3
      units left. Rows: process 0 (total 2, 1 left) on the CPU at tick 1,
      process 1 (total 3) queued; both arrived at 0. */
  lemma SrtPreemptsShorterRunning()
    ensures var s := State([Row(1, 0, 2, 1, -1), Row(1, 0, 3, 3, -1)], [1], 1, 0);
      && Inv(s)
      && s.rows[s.cur].remaining < s.rows[1].remaining
      && Served(SRT, s) == 1
      && Dispatched(SRT, s).0 == [0]
  {
    var s := State([Row(1, 0, 2, 1, -1), Row(1, 0, 3, 3, -1)], [1], 1, 0);
    forall i
      ensures Pool(s.queue, s.cur)[i] == if Ready(s.rows, i, s.t) then 1 else 0
    {
      assert Pool(s.queue, s.cur) == multiset{1, 0};
    }
    assert Inv(s);
    DispatchedIs(SRT, s);
    assert Arrivals(s.rows, 1, 2) == [];
    assert Admitted(s) == [1];
  }
}
