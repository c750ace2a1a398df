/** The three simulation loops as they run on a table in place. Each loop
    keeps its tick t, its current process and its ready queue in local
    variables and is proved to leave the table exactly as the state machine
    Engine.Run says; the steps shared by the three loops (the arrival scan,
    the first-minimum scan and the service of the current process) are
    methods of their own. */
module Simulator {
  import opened Registry
  import opened ReadyQueue
  import opened Engine

  /** The arrival scan of tick t: every process whose arrival is t is
      appended to the tail of the queue, in increasing index order. */
  method AdmitArrivals(system: array<Row>, queue: seq<int>, t: int) returns (q: seq<int>)
    ensures q == queue + Arrivals(system[..], t, system.Length)
  {
    q := queue;
    for i := 0 to system.Length
      invariant q == queue + Arrivals(system[..], t, i)
    {
      var arrTime := system[i].arrival;
      if t == arrTime {
        q := q + [i];
      }
    }
  }

  /** The scan over the queue that keeps the first process with the
      smallest key: -1 for an empty queue, otherwise the queued process at
      position FirstMin. A candidate is replaced only by a strictly smaller
      key; before the first candidate any key is taken. */
  method SelectFirstMin(system: array<Row>, queue: seq<int>, key: Key) returns (best: int)
    requires forall k :: 0 <= k < |queue| ==> 0 <= queue[k] < system.Length
    ensures queue == [] ==> best == -1
    ensures queue != [] ==> best == queue[FirstMin(system[..], queue, key)]
  {
    best := -1;
    var least := 0;
    ghost var pos := 0;
    for k := 0 to |queue|
      invariant k == 0 ==> best == -1
      invariant k > 0 ==> pos == FirstMin(system[..], queue[..k], key) && best == queue[pos]
      invariant k > 0 ==> least == KeyOf(system[best], key)
    {
      assert queue[..k + 1][..k] == queue[..k];
      var v := KeyOf(system[queue[k]], key);
      if best < 0 || v < least {
        best := queue[k];
        least := v;
        pos := k;
      }
    }
    assert queue[..|queue|] == queue;
  }

  /** One tick of service to the current process: its remaining time drops
      by one and, when it reaches 0, the turnaround t - arrival + 1 is
      written, the row becomes inactive and the CPU is freed. */
  method ServeCurrent(system: array<Row>, currentProcess: int, t: int) returns (next: int)
    requires 0 <= currentProcess < system.Length
    modifies system
    ensures (system[..], next) == Serve(old(system[..]), t, currentProcess)
  {
    var row := system[currentProcess];
    system[currentProcess] := row.(remaining := row.remaining - 1);
    next := currentProcess;
    if system[currentProcess].remaining == 0 {
      var arrTime := system[currentProcess].arrival;
      system[currentProcess] := system[currentProcess].(turnaround := t - arrTime + 1, active := 0);
      next := -1;
    }
    assert system[..] == Serve(old(system[..]), t, currentProcess).0;
  }

  /** One iteration of the FCFS loop body from tick t: the arrival scan;
      when the CPU is free, the head of the queue takes it, or the tick is
      idle if the queue is empty; then one unit of service. The result is
      the queue, tick and current process for the next iteration, and the
      table and those variables are one Tick of the FCFS state machine. */
  method FcfsStep(system: array<Row>, queue: seq<int>, t: int, currentProcess: int)
    returns (q: seq<int>, t': int, c: int)
    requires Inv(State(system[..], queue, t, currentProcess))
    modifies system
    ensures State(system[..], q, t', c) == Tick(FCFS, State(old(system[..]), queue, t, currentProcess))
  {
    ghost var s := State(system[..], queue, t, currentProcess);
    AdmitPool(s);
    DispatchedIs(FCFS, s);
    q := AdmitArrivals(system, queue, t);
    c := currentProcess;
    if c < 0 {
      if q != [] {
        c := q[0];
        q := q[1..];
      } else {
        t' := t + 1;
        return;
      }
    }
    c := ServeCurrent(system, c, t);
    t' := t + 1;
  }

  /** One iteration of the SJF loop body from tick t (the tick cap is tested
      by the loop): the arrival scan; when the CPU is free, the first queued
      process with the smallest total CPU time takes it and that occurrence
      leaves the queue, or the tick is idle if the queue is empty; then one
      unit of service. The result is one Tick of the SJF state machine. */
  method SjfStep(system: array<Row>, queue: seq<int>, t: int, currentProcess: int)
    returns (q: seq<int>, t': int, c: int)
    requires Inv(State(system[..], queue, t, currentProcess))
    modifies system
    ensures State(system[..], q, t', c) == Tick(SJF, State(old(system[..]), queue, t, currentProcess))
  {
    ghost var s := State(system[..], queue, t, currentProcess);
    AdmitPool(s);
    DispatchedIs(SJF, s);
    q := AdmitArrivals(system, queue, t);
    c := currentProcess;
    if c < 0 {
      if q != [] {
        var shortestJob := SelectFirstMin(system, q, TotalTime);
        if shortestJob != -1 {
          c := shortestJob;
          q := RemoveFirstOccurrence(q, shortestJob);
        }
      } else {
        t' := t + 1;
        return;
      }
    }
    c := ServeCurrent(system, c, t);
    t' := t + 1;
  }

  /** The SRT selection: when the queue is not empty, the first queued
      process with the smallest remaining time leaves it and takes the CPU,
      and a different process that held the CPU is appended to the tail. The
      process on the CPU is not compared with the queue. */
  method PreemptLeastRemaining(system: array<Row>, queue: seq<int>, currentProcess: int)
    returns (q: seq<int>, c: int)
    requires forall k :: 0 <= k < |queue| ==> 0 <= queue[k] < system.Length
    requires -1 <= currentProcess < system.Length
    ensures (q, c) == Dispatch(SRT, system[..], queue, currentProcess)
  {
    q, c := queue, currentProcess;
    var leastRemJob := SelectFirstMin(system, q, RemainingTime);
    if leastRemJob >= 0 {
      q := RemoveFirstOccurrence(q, leastRemJob);
      if c >= 0 && c != leastRemJob {
        q := q + [c];
      }
      c := leastRemJob;
    }
  }

  /** One iteration of the SRT loop body from tick t: the arrival scan;
      when the queue is not empty, the first queued process with the
      smallest remaining time leaves it and takes the CPU, and a different
      process that held the CPU goes to the tail (the process on the CPU is
      not compared with the queue); an idle tick if the CPU is still free;
      otherwise one unit of service. The result is one Tick of the SRT state
      machine. */
  method SrtStep(system: array<Row>, queue: seq<int>, t: int, currentProcess: int)
    returns (q: seq<int>, t': int, c: int)
    requires Inv(State(system[..], queue, t, currentProcess))
    modifies system
    ensures State(system[..], q, t', c) == Tick(SRT, State(old(system[..]), queue, t, currentProcess))
  {
    ghost var s := State(system[..], queue, t, currentProcess);
    AdmitPool(s);
    DispatchedIs(SRT, s);
    q := AdmitArrivals(system, queue, t);
    c := currentProcess;
    q, c := PreemptLeastRemaining(system, q, c);
    if c < 0 {
      t' := t + 1;
      return;
    }
    c := ServeCurrent(system, c, t);
    t' := t + 1;
  }

  /** First come, first served on system: the CPU, when free, goes to the
      head of the queue, and the process keeps it until it finishes. The
      table ends as the FCFS run prescribes, with every process finished. */
  method SimulateFcfs(system: array<Row>)
    requires Schedulable(system[..])
    modifies system
    ensures system[..] == Simulate(FCFS, old(system[..])).rows
    ensures Completed(system[..])
  {
    var t := 0;
    var currentProcess := -1;
    var queue: seq<int> := [];
    ghost var rows0 := system[..];
    StartInv(rows0);
    var more := HasRemaining(system);
    while more
      invariant Inv(State(system[..], queue, t, currentProcess))
      invariant Run(FCFS, State(system[..], queue, t, currentProcess)) == Run(FCFS, Start(rows0))
      invariant more == AnyRemaining(system[..])
      decreases Work(system[..]), Horizon(State(system[..], queue, t, currentProcess))
    {
      ghost var s := State(system[..], queue, t, currentProcess);
      TickInv(FCFS, s);
      TickProgress(FCFS, s);
      queue, t, currentProcess := FcfsStep(system, queue, t, currentProcess);
      more := HasRemaining(system);
    }
    RunCompletes(FCFS, Start(rows0));
  }

  /** Shortest job first, non-preemptive, on system: the CPU, when free, goes
      to the first queued process with the smallest total CPU time. The loop
      also leaves once t exceeds 100, so the table ends as the SJF run
      prescribes: either every process finished, or the run stopped at
      tick 101 with work left. */
  method SimulateSjf(system: array<Row>)
    requires Schedulable(system[..])
    modifies system
    ensures system[..] == Simulate(SJF, old(system[..])).rows
    ensures Completed(system[..]) || (AnyRemaining(system[..]) && Simulate(SJF, old(system[..])).t == SjfTickCap + 1)
  {
    var t := 0;
    var currentProcess := -1;
    var queue: seq<int> := [];
    ghost var rows0 := system[..];
    StartInv(rows0);
    var more := HasRemaining(system);
    while more
      invariant Inv(State(system[..], queue, t, currentProcess))
      invariant Run(SJF, State(system[..], queue, t, currentProcess)) == Run(SJF, Start(rows0))
      invariant more == AnyRemaining(system[..])
      decreases Work(system[..]), Horizon(State(system[..], queue, t, currentProcess))
    {
      if t > SjfTickCap {
        break;
      }
      ghost var s := State(system[..], queue, t, currentProcess);
      TickInv(SJF, s);
      TickProgress(SJF, s);
      queue, t, currentProcess := SjfStep(system, queue, t, currentProcess);
      more := HasRemaining(system);
    }
    SjfExit(rows0);
  }

  /** The code's shortest-remaining-time rule on system: on every tick with
      a non-empty queue, the first queued process with the smallest
      remaining time takes the CPU and a different process that held it goes
      to the tail of the queue. The table ends as the SRT run prescribes,
      with every process finished. */
  method SimulateSrt(system: array<Row>)
    requires Schedulable(system[..])
    modifies system
    ensures system[..] == Simulate(SRT, old(system[..])).rows
    ensures Completed(system[..])
  {
    var t := 0;
    var currentProcess := -1;
    var queue: seq<int> := [];
    ghost var rows0 := system[..];
    StartInv(rows0);
    var more := HasRemaining(system);
    while more
      invariant Inv(State(system[..], queue, t, currentProcess))
      invariant Run(SRT, State(system[..], queue, t, currentProcess)) == Run(SRT, Start(rows0))
      invariant more == AnyRemaining(system[..])
      decreases Work(system[..]), Horizon(State(system[..], queue, t, currentProcess))
    {
      ghost var s := State(system[..], queue, t, currentProcess);
      TickInv(SRT, s);
      TickProgress(SRT, s);
      queue, t, currentProcess := SrtStep(system, queue, t, currentProcess);
      more := HasRemaining(system);
    }
    RunCompletes(SRT, Start(rows0));
  }
}
