/** The tick loop shared by the three simulations, as a state machine.

    A State holds the variables of one simulation loop: the table, the ready
    queue, the tick t and the current process (-1 when the CPU is free). One
    iteration of any of the three loops is
      1. admission: every process whose arrival is t is appended to the queue
         in index order;
      2. dispatch: the policy's rule decides which process holds the CPU;
      3. an idle tick when nothing holds the CPU, otherwise service: the
         current process loses one unit of remaining time and, when that
         reaches 0, gets its turnaround t - arrival + 1, becomes inactive and
         frees the CPU;
      4. t advances by one.
    The loop runs while some process has remaining time; the SJF loop also
    leaves as soon as t exceeds 100. */
module Engine {
  import opened Registry
  import opened ReadyQueue

  datatype Policy = FCFS | SJF | SRT

  datatype State = State(rows: seq<Row>, queue: seq<int>, t: int, cur: int)

  /** The loop variables before the first iteration. */
  function Start(rows: seq<Row>): State
  {
    State(rows, [], 0, -1)
  }

  /** The SJF loop's extra exit: it stops once t exceeds this tick. */
  const SjfTickCap := 100

  /** The loop's exit test, evaluated before each iteration. */
  predicate Stops(p: Policy, s: State)
  {
    !AnyRemaining(s.rows) || (p == SJF && s.t > SjfTickCap)
  }

  // ---------------------------------------------------------------------
  // The invariant of the loops
  // ---------------------------------------------------------------------

  /** Process i was admitted before tick t and has not finished. */
  ghost predicate Ready(rows: seq<Row>, i: int, t: int)
  {
    0 <= i < |rows| && rows[i].arrival < t && rows[i].remaining > 0
  }

  /** The processes held by the queue and the CPU together, with multiplicity. */
  ghost function Pool(q: seq<int>, cur: int): multiset<int>
  {
    multiset(q) + (if cur >= 0 then multiset{cur} else multiset{})
  }

  /** Queue and CPU together hold every ready process exactly once and nothing else. */
  ghost predicate PoolExact(rows: seq<Row>, q: seq<int>, cur: int, t: int)
  {
    forall i :: Pool(q, cur)[i] == if Ready(rows, i, t) then 1 else 0
  }

  /** What holds of every row before tick t: the demand is positive and the
      arrival not negative; a process that has not arrived is untouched; an
      arrived one has been served at most once per tick since its arrival;
      an unfinished one is active with no turnaround; a finished one is
      inactive and its turnaround is at least its demand and at most the
      ticks elapsed since its arrival. */
  ghost predicate RowOk(r: Row, t: int)
  {
    && r.arrival >= 0 && r.total >= 1
    && 0 <= r.remaining <= r.total
    && (r.arrival >= t ==> r.remaining == r.total)
    && (r.arrival < t ==> r.total - r.remaining <= t - r.arrival)
    && (r.remaining > 0 ==> r.active == 1 && r.turnaround == -1)
    && (r.remaining == 0 ==> r.active == 0 && r.total <= r.turnaround <= t - r.arrival)
  }

  /** The loop invariant: the current process is -1 or a row index, every
      row satisfies RowOk, and the queue holds distinct, arrived, unfinished
      processes other than the current one, which together with the current
      one are all the arrived, unfinished processes. */
  ghost predicate Inv(s: State)
  {
    && -1 <= s.cur < |s.rows|
    && (forall i :: 0 <= i < |s.rows| ==> RowOk(s.rows[i], s.t))
    && PoolExact(s.rows, s.queue, s.cur, s.t)
    && (forall k :: 0 <= k < |s.queue| ==> Ready(s.rows, s.queue[k], s.t))
    && (s.cur >= 0 ==> Ready(s.rows, s.cur, s.t))
  }

  /** An exact pool consists of ready processes, none twice, and the current
      process is not also queued. */
  lemma PoolReady(rows: seq<Row>, q: seq<int>, cur: int, t: int)
    requires PoolExact(rows, q, cur, t)
    ensures forall k :: 0 <= k < |q| ==> Ready(rows, q[k], t)
    ensures cur >= 0 ==> Ready(rows, cur, t) && cur !in q
    ensures forall i :: Pool(q, cur)[i] <= 1
  {
    forall k | 0 <= k < |q|
      ensures Ready(rows, q[k], t)
    {
      assert q[k] in multiset(q);
      assert Pool(q, cur)[q[k]] >= 1;
    }
    if cur >= 0 {
      assert Pool(q, cur)[cur] >= 1;
    }
  }

  /** The table before the first tick satisfies the invariant. */
  lemma StartInv(rows: seq<Row>)
    requires Schedulable(rows)
    ensures Inv(Start(rows))
  {
    forall i | 0 <= i < |rows|
      ensures RowOk(rows[i], 0)
    {
      assert rows[i] == InitialRow(rows[i].arrival, rows[i].total);
    }
    forall i
      ensures Pool([], -1)[i] == if Ready(rows, i, 0) then 1 else 0
    {
      if 0 <= i < |rows| {
        assert rows[i].arrival >= 0;
      }
    }
  }

  // ---------------------------------------------------------------------
  // One tick
  // ---------------------------------------------------------------------

  /** The queue after the arrival scan of tick s.t. */
  function Admitted(s: State): seq<int>
  {
    s.queue + Arrivals(s.rows, s.t, |s.rows|)
  }

  /** After the arrival scan the queue and the CPU hold exactly the processes
      that have arrived by tick t and are unfinished. */
  lemma AdmitPool(s: State)
    requires Inv(s)
    ensures PoolExact(s.rows, Admitted(s), s.cur, s.t + 1)
    ensures forall k :: 0 <= k < |Admitted(s)| ==> Ready(s.rows, Admitted(s)[k], s.t + 1)
    ensures s.cur >= 0 ==> s.cur !in Admitted(s)
  {
    var a := Arrivals(s.rows, s.t, |s.rows|);
    assert multiset(Admitted(s)) == multiset(s.queue) + multiset(a);
    forall i
      ensures Pool(Admitted(s), s.cur)[i] == if Ready(s.rows, i, s.t + 1) then 1 else 0
    {
      ArrivalsCount(s.rows, s.t, |s.rows|, i);
      assert Pool(Admitted(s), s.cur)[i] == Pool(s.queue, s.cur)[i] + multiset(a)[i];
      if 0 <= i < |s.rows| && s.rows[i].arrival == s.t {
        assert RowOk(s.rows[i], s.t);
      }
    }
    PoolReady(s.rows, Admitted(s), s.cur, s.t + 1);
  }

  /** The dispatch rule of each policy, given the queue after admission and
      the current process; it returns the new queue and current process.
        FCFS: when the CPU is free, take the queue head.
        SJF:  when the CPU is free, take the first queued process with the
              smallest total CPU time and remove that occurrence.
        SRT:  whenever the queue is not empty, take the first queued process
              with the smallest remaining time and remove it; a different
              process that was running goes to the tail of the queue. The
              running process itself is not compared.
      The CPU is left free only when nothing is queued or running. */
  function Dispatch(p: Policy, rows: seq<Row>, q: seq<int>, cur: int): (d: (seq<int>, int))
    requires forall k :: 0 <= k < |q| ==> 0 <= q[k] < |rows|
    requires -1 <= cur < |rows|
    ensures -1 <= d.1 < |rows|
    ensures d.1 < 0 <==> q == [] && cur < 0
    ensures d.1 < 0 ==> d.0 == []
  {
    match p
    case FCFS =>
      if cur < 0 then
        if q != [] then (q[1..], q[0]) else (q, cur)
      else (q, cur)
    case SJF =>
      if cur < 0 then
        if q != [] then
          var shortestJob := q[FirstMin(rows, q, TotalTime)];
          (RemoveFirstOccurrence(q, shortestJob), shortestJob)
        else (q, cur)
      else (q, cur)
    case SRT =>
      if q != [] then
        var leastRemJob := q[FirstMin(rows, q, RemainingTime)];
        var rest := RemoveFirstOccurrence(q, leastRemJob);
        (if cur >= 0 && cur != leastRemJob then rest + [cur] else rest, leastRemJob)
      else (q, cur)
  }

  /** Taking a queued process onto a free CPU keeps the pool. */
  lemma TakeKeepsPool(q: seq<int>, x: int)
    requires x in q && x >= 0
    ensures Pool(RemoveFirstOccurrence(q, x), x) == Pool(q, -1)
  {
    RemoveFirstOccurrenceCount(q, x);
    assert x in multiset(q);
    assert multiset(RemoveFirstOccurrence(q, x)) + multiset{x} == multiset(q);
  }

  /** Taking a queued process onto the CPU and sending the different process
      that held it to the tail keeps the pool. */
  lemma PreemptKeepsPool(q: seq<int>, x: int, cur: int)
    requires x in q && x >= 0 && cur >= 0
    ensures Pool(RemoveFirstOccurrence(q, x) + [cur], x) == Pool(q, cur)
  {
    RemoveFirstOccurrenceCount(q, x);
    assert x in multiset(q);
    var rest := RemoveFirstOccurrence(q, x);
    assert multiset(rest) + multiset{x} == multiset(q);
    assert multiset(rest + [cur]) == multiset(rest) + multiset{cur};
  }

  /** Dispatch moves processes between the queue and the CPU without losing
      or duplicating any. */
  lemma DispatchKeepsPool(p: Policy, rows: seq<Row>, q: seq<int>, cur: int)
    requires forall k :: 0 <= k < |q| ==> 0 <= q[k] < |rows|
    requires -1 <= cur < |rows|
    requires cur >= 0 ==> cur !in q
    ensures var d := Dispatch(p, rows, q, cur); Pool(d.0, d.1) == Pool(q, cur)
  {
    if q != [] {
      match p
      case FCFS =>
        if cur < 0 {
          assert q == [q[0]] + q[1..];
          assert RemoveFirstOccurrence(q, q[0]) == q[1..];
          TakeKeepsPool(q, q[0]);
        }
      case SJF =>
        if cur < 0 {
          var j := FirstMin(rows, q, TotalTime);
          TakeKeepsPool(q, q[j]);
        }
      case SRT =>
        var j := FirstMin(rows, q, RemainingTime);
        if cur >= 0 {
          PreemptKeepsPool(q, q[j], cur);
        } else {
          TakeKeepsPool(q, q[j]);
        }
    }
  }

  /** One unit of service to process c at tick t: its remaining time drops
      by one; when it reaches 0 the turnaround is t - arrival + 1, the row
      becomes inactive and the CPU is freed (-1). Returns the new table and
      current process. */
  function Serve(rows: seq<Row>, t: int, c: int): (r: (seq<Row>, int))
    requires 0 <= c < |rows|
    ensures |r.0| == |rows|
    ensures forall i :: 0 <= i < |rows| && i != c ==> r.0[i] == rows[i]
    ensures r.0[c].remaining == rows[c].remaining - 1
    ensures r.0[c].arrival == rows[c].arrival && r.0[c].total == rows[c].total
    ensures r.0[c].remaining == 0 ==>
      r.1 == -1 && r.0[c].active == 0 && r.0[c].turnaround == t - rows[c].arrival + 1
    ensures r.0[c].remaining != 0 ==>
      r.1 == c && r.0[c].active == rows[c].active && r.0[c].turnaround == rows[c].turnaround
  {
    var row := rows[c].(remaining := rows[c].remaining - 1);
    if row.remaining == 0 then
      (rows[c := row.(turnaround := t - row.arrival + 1, active := 0)], -1)
    else
      (rows[c := row], c)
  }

  /** The queue and current process after admission and dispatch at tick s.t. */
  function Dispatched(p: Policy, s: State): (d: (seq<int>, int))
    requires Inv(s)
    ensures -1 <= d.1 < |s.rows|
    ensures d.1 < 0 ==> d.0 == []
  {
    AdmitPool(s);
    Dispatch(p, s.rows, Admitted(s), s.cur)
  }

  /** Dispatched is the policy's rule applied to the queue after admission. */
  lemma DispatchedIs(p: Policy, s: State)
    requires Inv(s)
    ensures (AdmitPool(s); Dispatched(p, s) == Dispatch(p, s.rows, Admitted(s), s.cur))
  {
    AdmitPool(s);
  }

  /** The process that holds the CPU during tick s.t (-1 on an idle tick). */
  function Served(p: Policy, s: State): int
    requires Inv(s)
  {
    Dispatched(p, s).1
  }

  /** The end of a tick once the queue q and the CPU holder c are decided:
      an idle tick only advances t; otherwise c is served first. */
  function Advance(rows: seq<Row>, t: int, q: seq<int>, c: int): State
    requires -1 <= c < |rows|
  {
    if c < 0 then State(rows, q, t + 1, c)
    else
      var served := Serve(rows, t, c);
      State(served.0, q, t + 1, served.1)
  }

  /** One iteration of the simulation loop of policy p. */
  function Tick(p: Policy, s: State): State
    requires Inv(s)
  {
    var d := Dispatched(p, s);
    Advance(s.rows, s.t, d.0, d.1)
  }

  /** A row that is not served keeps its invariant when time advances. */
  lemma RowOkLater(r: Row, t: int)
    requires RowOk(r, t)
    ensures RowOk(r, t + 1)
  {
  }

  /** A row served at tick t keeps its invariant. */
  lemma RowOkServed(r: Row, t: int)
    requires RowOk(r, t)
    requires r.arrival <= t && r.remaining > 0
    ensures var r' := r.(remaining := r.remaining - 1);
      RowOk(if r'.remaining == 0 then r'.(turnaround := t - r'.arrival + 1, active := 0) else r', t + 1)
  {
  }

  /** After admission and dispatch the queue and the CPU hold exactly the
      processes that are ready by the end of the tick. */
  lemma DispatchedPool(p: Policy, s: State)
    requires Inv(s)
    ensures PoolExact(s.rows, Dispatched(p, s).0, Dispatched(p, s).1, s.t + 1)
  {
    AdmitPool(s);
    DispatchKeepsPool(p, s.rows, Admitted(s), s.cur);
  }

  /** Ending a tick keeps the invariant, whether it is idle or serves the
      process on the CPU. */
  lemma AdvanceKeepsInv(rows: seq<Row>, t: int, q: seq<int>, c: int)
    requires -1 <= c < |rows|
    requires forall i :: 0 <= i < |rows| ==> RowOk(rows[i], t)
    requires PoolExact(rows, q, c, t + 1)
    ensures Inv(Advance(rows, t, q, c))
  {
    PoolReady(rows, q, c, t + 1);
    if c < 0 {
      forall i | 0 <= i < |rows|
        ensures RowOk(rows[i], t + 1)
      {
        RowOkLater(rows[i], t);
      }
    } else {
      var served := Serve(rows, t, c);
      forall i | 0 <= i < |rows|
        ensures RowOk(served.0[i], t + 1)
      {
        if i == c {
          RowOkServed(rows[i], t);
        } else {
          RowOkLater(rows[i], t);
        }
      }
      assert Pool(q, c)[c] == 1;
      forall i
        ensures Pool(q, served.1)[i] == if Ready(served.0, i, t + 1) then 1 else 0
      {
        if i != c {
          assert Pool(q, served.1)[i] == Pool(q, c)[i];
          if 0 <= i < |rows| {
            assert served.0[i] == rows[i];
          }
        }
      }
      PoolReady(served.0, q, served.1, t + 1);
    }
  }

  /** Every tick of every policy preserves the invariant. */
  lemma TickInv(p: Policy, s: State)
    requires Inv(s)
    ensures Inv(Tick(p, s))
  {
    DispatchedPool(p, s);
    var d := Dispatched(p, s);
    assert Tick(p, s) == Advance(s.rows, s.t, d.0, d.1);
    AdvanceKeepsInv(s.rows, s.t, d.0, d.1);
  }

  /** What ending a tick does to the table, once the CPU holder c is
      decided: only row c changes, losing one unit of remaining time, and on
      completion its turnaround is written, it becomes inactive and the CPU
      is freed; an idle tick changes nothing but t. */
  lemma AdvanceServes(rows: seq<Row>, t: int, q: seq<int>, c: int)
    requires -1 <= c < |rows|
    requires c >= 0 ==> Ready(rows, c, t + 1) && RowOk(rows[c], t)
    ensures var s' := Advance(rows, t, q, c);
      && s'.t == t + 1
      && |s'.rows| == |rows|
      && (forall i :: 0 <= i < |rows| ==> s'.rows[i].arrival == rows[i].arrival && s'.rows[i].total == rows[i].total)
      && (forall i :: 0 <= i < |rows| && i != c ==> s'.rows[i] == rows[i])
      && (c < 0 ==> s'.rows == rows && s'.cur == -1)
      && (c >= 0 ==> s'.rows[c].remaining == rows[c].remaining - 1)
      && (c >= 0 && s'.rows[c].remaining == 0 ==>
            s'.rows[c].turnaround == t - rows[c].arrival + 1 && s'.rows[c].turnaround >= 1
            && s'.rows[c].active == 0 && s'.cur == -1)
      && (c >= 0 && s'.rows[c].remaining > 0 ==> s'.cur == c && s'.rows[c].turnaround == -1)
  {
  }

  /** What one tick does to the table: the served process, which has arrived
      and is unfinished, loses exactly one unit of remaining time and no other
      row changes; on completion its turnaround is t - arrival + 1, it becomes
      inactive and the CPU is freed; an idle tick changes nothing but t. */
  lemma TickServesOne(p: Policy, s: State)
    requires Inv(s)
    ensures var s', c := Tick(p, s), Served(p, s);
      && s'.t == s.t + 1
      && |s'.rows| == |s.rows|
      && (forall i :: 0 <= i < |s.rows| ==> s'.rows[i].arrival == s.rows[i].arrival && s'.rows[i].total == s.rows[i].total)
      && (forall i :: 0 <= i < |s.rows| && i != c ==> s'.rows[i] == s.rows[i])
      && (c < 0 ==> s'.rows == s.rows && s'.cur == -1)
      && (c >= 0 ==> Ready(s.rows, c, s.t + 1) && s'.rows[c].remaining == s.rows[c].remaining - 1)
      && (c >= 0 && s'.rows[c].remaining == 0 ==>
            s'.rows[c].turnaround == s.t - s.rows[c].arrival + 1 && s'.rows[c].turnaround >= 1
            && s'.rows[c].active == 0 && s'.cur == -1)
      && (c >= 0 && s'.rows[c].remaining > 0 ==> s'.cur == c && s'.rows[c].turnaround == -1)
  {
    DispatchedPool(p, s);
    var d := Dispatched(p, s);
    PoolReady(s.rows, d.0, d.1, s.t + 1);
    if d.1 >= 0 {
      assert RowOk(s.rows[d.1], s.t);
    }
    AdvanceServes(s.rows, s.t, d.0, d.1);
  }

  // ---------------------------------------------------------------------
  // Termination and the whole run
  // ---------------------------------------------------------------------

  /** Ticks left until the last arrival (0 once it has passed). */
  function Horizon(s: State): nat
  {
    if MaxArrival(s.rows) > s.t then MaxArrival(s.rows) - s.t else 0
  }

  /** Serving a process lowers the outstanding demand by one unit and
      keeps the latest arrival. */
  lemma ServeProgress(rows: seq<Row>, t: int, c: int)
    requires 0 <= c < |rows|
    ensures Work(Serve(rows, t, c).0) == Work(rows) - 1
    ensures MaxArrival(Serve(rows, t, c).0) == MaxArrival(rows)
  {
    var served := Serve(rows, t, c);
    WorkUpdate(rows, c, served.0[c]);
    MaxArrivalUpdate(rows, c, served.0[c]);
    assert served.0 == rows[c := served.0[c]];
  }

  /** An idle tick while work is left happens only before the last arrival:
      a process with remaining time that is neither queued nor running has
      not arrived yet. */
  lemma IdleBeforeLastArrival(rows: seq<Row>, t: int, q: seq<int>)
    requires forall i :: 0 <= i < |rows| ==> RowOk(rows[i], t)
    requires PoolExact(rows, q, -1, t + 1)
    requires q == [] && AnyRemaining(rows)
    ensures MaxArrival(rows) > t
  {
    var i :| 0 <= i < |rows| && rows[i].remaining > 0;
    assert Pool(q, -1)[i] == 0;
    assert rows[i].arrival > t;
  }

  /** Ending a tick lowers the outstanding demand by exactly one unit when
      it serves and leaves it alone when it is idle; the latest arrival does
      not change, and an idle tick while work is left comes before it. */
  lemma AdvanceProgress(rows: seq<Row>, t: int, q: seq<int>, c: int)
    requires -1 <= c < |rows|
    requires forall i :: 0 <= i < |rows| ==> RowOk(rows[i], t)
    requires PoolExact(rows, q, c, t + 1)
    requires c < 0 ==> q == []
    ensures var s' := Advance(rows, t, q, c);
      && Work(rows) >= 0
      && Work(s'.rows) == Work(rows) - (if c >= 0 then 1 else 0)
      && MaxArrival(s'.rows) == MaxArrival(rows)
      && s'.t == t + 1
      && (c < 0 && AnyRemaining(rows) ==> MaxArrival(rows) > t)
  {
    if c >= 0 {
      ServeProgress(rows, t, c);
    } else if AnyRemaining(rows) {
      IdleBeforeLastArrival(rows, t, q);
    }
  }

  /** A tick serves at most one unit of demand: exactly one when it is not
      idle. */
  lemma TickWork(p: Policy, s: State)
    requires Inv(s)
    ensures Work(s.rows) >= 0
    ensures Work(Tick(p, s).rows) == Work(s.rows) - (if Served(p, s) >= 0 then 1 else 0)
  {
    DispatchedPool(p, s);
    var d := Dispatched(p, s);
    assert Tick(p, s) == Advance(s.rows, s.t, d.0, d.1);
    AdvanceProgress(s.rows, s.t, d.0, d.1);
  }

  /** A tick advances the clock by one and keeps the latest arrival, and an
      idle tick while work is left happens only before that arrival. */
  lemma TickClock(p: Policy, s: State)
    requires Inv(s)
    ensures MaxArrival(Tick(p, s).rows) == MaxArrival(s.rows) && Tick(p, s).t == s.t + 1
    ensures Served(p, s) < 0 && AnyRemaining(s.rows) ==> MaxArrival(s.rows) > s.t
  {
    DispatchedPool(p, s);
    var d := Dispatched(p, s);
    assert Tick(p, s) == Advance(s.rows, s.t, d.0, d.1);
    AdvanceProgress(s.rows, s.t, d.0, d.1);
  }

  /** The two measures of the run: a tick lowers the outstanding demand by
      exactly one unit when it serves; an idle tick while work is left brings
      the clock closer to the last arrival. */
  lemma TickProgress(p: Policy, s: State)
    requires Inv(s)
    ensures Work(s.rows) >= 0
    ensures Work(Tick(p, s).rows) == Work(s.rows) - (if Served(p, s) >= 0 then 1 else 0)
    ensures Horizon(Tick(p, s)) <= Horizon(s)
    ensures Served(p, s) < 0 && AnyRemaining(s.rows) ==> Horizon(Tick(p, s)) < Horizon(s)
  {
    TickWork(p, s);
    TickClock(p, s);
  }

  /** The simulation of policy p from state s: ticks until the loop's exit
      test holds. The final state satisfies the invariant and the exit test,
      and the arrival and total columns are those of s. */
  function Run(p: Policy, s: State): (f: State)
    requires Inv(s)
    ensures Inv(f) && Stops(p, f)
    ensures |f.rows| == |s.rows|
    ensures forall i :: 0 <= i < |s.rows| ==> f.rows[i].arrival == s.rows[i].arrival && f.rows[i].total == s.rows[i].total
    ensures f.t >= s.t
    decreases Work(s.rows), Horizon(s)
  {
    if Stops(p, s) then s
    else
      TickInv(p, s);
      TickServesOne(p, s);
      TickProgress(p, s);
      Run(p, Tick(p, s))
  }

  /** The whole simulation of policy p over a freshly built table. */
  function Simulate(p: Policy, rows: seq<Row>): State
    requires Schedulable(rows)
  {
    StartInv(rows);
    Run(p, Start(rows))
  }

  /** The run ends at the latest when every unit of demand has been served
      and the last process has arrived, and the ticks it takes are at least
      the demand it serves: each tick serves at most one unit. */
  lemma {:induction false} RunAccounting(p: Policy, s: State)
    requires Inv(s)
    ensures Run(p, s).t <= s.t + Work(s.rows) + Horizon(s)
    ensures Work(Run(p, s).rows) >= Work(s.rows) - (Run(p, s).t - s.t)
    decreases Work(s.rows), Horizon(s)
  {
    if !Stops(p, s) {
      TickInv(p, s);
      TickServesOne(p, s);
      TickProgress(p, s);
      RunAccounting(p, Tick(p, s));
    }
  }

  /** The FCFS and SRT loops exit only when every process has finished: each
      row ends with no remaining time, inactive, and with a turnaround at
      least its demand and at most the ticks from its arrival to the end. */
  lemma RunCompletes(p: Policy, s: State)
    requires Inv(s) && p != SJF
    ensures Completed(Run(p, s).rows)
    ensures forall i :: 0 <= i < |s.rows| ==> Run(p, s).rows[i].turnaround <= Run(p, s).t - s.rows[i].arrival
  {
    var f := Run(p, s);
    forall i | 0 <= i < |f.rows|
      ensures f.rows[i].remaining == 0
    {
      assert RowOk(f.rows[i], f.t);
    }
  }

  /** Length of an FCFS or SRT simulation: at least one tick per unit of
      demand, since each tick serves at most one unit, and at most the whole
      demand plus the latest arrival tick, since a tick is idle only while a
      process has yet to arrive. */
  lemma SimulationLength(p: Policy, rows: seq<Row>)
    requires Schedulable(rows) && p != SJF
    ensures Work(rows) <= Simulate(p, rows).t <= Work(rows) + MaxArrival(rows)
  {
    StartInv(rows);
    var s := Start(rows);
    RunAccounting(p, s);
    RunCompletes(p, s);
    assert !AnyRemaining(Run(p, s).rows);
    if rows != [] {
      assert rows[0].arrival >= 0;
    }
  }

  /** The SJF loop never runs past tick 101. */
  lemma {:induction false} SjfRunBound(s: State)
    requires Inv(s) && s.t <= SjfTickCap + 1
    ensures Run(SJF, s).t <= SjfTickCap + 1
    decreases Work(s.rows), Horizon(s)
  {
    if !Stops(SJF, s) {
      TickInv(SJF, s);
      TickServesOne(SJF, s);
      TickProgress(SJF, s);
      SjfRunBound(Tick(SJF, s));
    }
  }

  /** The SJF loop leaves either with every process finished or at tick 101
      with work left. */
  lemma SjfExit(rows: seq<Row>)
    requires Schedulable(rows)
    ensures var f := Simulate(SJF, rows);
      Completed(f.rows) || (AnyRemaining(f.rows) && f.t == SjfTickCap + 1)
  {
    StartInv(rows);
    var f := Run(SJF, Start(rows));
    SjfRunBound(Start(rows));
    if !AnyRemaining(f.rows) {
      forall i | 0 <= i < |f.rows|
        ensures f.rows[i].remaining == 0
      {
        assert RowOk(f.rows[i], f.t);
      }
    }
  }

  /** The tick cap is harmless when the whole demand plus the latest arrival
      fits in 100 ticks: SJF then finishes every process. */
  lemma SjfCompletesWithinCap(rows: seq<Row>)
    requires Schedulable(rows)
    requires Work(rows) + MaxArrival(rows) <= SjfTickCap
    ensures Completed(Simulate(SJF, rows).rows)
  {
    StartInv(rows);
    var f := Run(SJF, Start(rows));
    RunAccounting(SJF, Start(rows));
    forall i | 0 <= i < |f.rows|
      ensures f.rows[i].remaining == 0
    {
      assert RowOk(f.rows[i], f.t);
    }
  }

  /** With more than 101 units of demand the SJF loop always leaves work
      unfinished, however the processes arrive. */
  lemma SjfCapLeavesWork(rows: seq<Row>)
    requires Schedulable(rows)
    requires Work(rows) > SjfTickCap + 1
    ensures AnyRemaining(Simulate(SJF, rows).rows)
  {
    StartInv(rows);
    RunAccounting(SJF, Start(rows));
    SjfRunBound(Start(rows));
  }
}
