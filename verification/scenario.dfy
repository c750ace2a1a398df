/** A worked example: three processes that all arrive at tick 0 and need
    3, 1 and 2 ticks of CPU. Each policy's run is followed tick by tick to
    its final table, whose turnaround columns are FCFS [3, 4, 6],
    SJF [6, 1, 3] and, because the running process is not compared with
    the queue, SRT [6, 1, 4]. */
module Scenario {
  import opened Registry
  import opened ReadyQueue
  import opened Engine

  /** The example table as the workload generator builds it. */
  function Example(): (rows: seq<Row>)
    ensures Schedulable(rows)
  {
    [InitialRow(0, 3), InitialRow(0, 1), InitialRow(0, 2)]
  }

  /** A row of the example with its progress: remaining time, and the
      turnaround once it has finished. */
  function At(total: int, remaining: int, turnaround: int): Row
  {
    if remaining == 0 then Row(0, 0, total, 0, turnaround) else Row(1, 0, total, remaining, -1)
  }

  /** A run that has not stopped continues from the state its next tick
      reaches. */
  lemma Moves(p: Policy, s: State, s': State)
    requires Inv(s) && AnyRemaining(s.rows) && !(p == SJF && s.t > SjfTickCap) && Tick(p, s) == s'
    ensures Inv(s') && Run(p, s) == Run(p, s')
  {
    TickInv(p, s);
  }

  /** A run in which no process has time left is over. */
  lemma Finished(p: Policy, s: State)
    requires Inv(s) && !AnyRemaining(s.rows)
    ensures Run(p, s) == s
  {
  }

  /** FcfsFromK: from the state the FCFS run reaches at tick K, the run ends
      with the final table of the example. */
  lemma FcfsFrom6(s: State)
    requires s == State([At(3, 0, 3), At(1, 0, 4), At(2, 0, 6)], [], 6, -1) && Inv(s)
    ensures Run(FCFS, s).rows == [At(3, 0, 3), At(1, 0, 4), At(2, 0, 6)]
  {
    Finished(FCFS, s);
  }

  lemma FcfsFrom5(s: State)
    requires s == State([At(3, 0, 3), At(1, 0, 4), At(2, 1, 0)], [], 5, 2) && Inv(s)
    ensures Run(FCFS, s).rows == [At(3, 0, 3), At(1, 0, 4), At(2, 0, 6)]
  {
    var s' := State([At(3, 0, 3), At(1, 0, 4), At(2, 0, 6)], [], 6, -1);
    assert s.rows[2].remaining > 0;
    Moves(FCFS, s, s');
    FcfsFrom6(s');
  }

  lemma FcfsFrom4(s: State)
    requires s == State([At(3, 0, 3), At(1, 0, 4), At(2, 2, 0)], [2], 4, -1) && Inv(s)
    ensures Run(FCFS, s).rows == [At(3, 0, 3), At(1, 0, 4), At(2, 0, 6)]
  {
    var s' := State([At(3, 0, 3), At(1, 0, 4), At(2, 1, 0)], [], 5, 2);
    assert s.rows[2].remaining > 0;
    Moves(FCFS, s, s');
    FcfsFrom5(s');
  }

  lemma FcfsFrom3(s: State)
    requires s == State([At(3, 0, 3), At(1, 1, 0), At(2, 2, 0)], [1, 2], 3, -1) && Inv(s)
    ensures Run(FCFS, s).rows == [At(3, 0, 3), At(1, 0, 4), At(2, 0, 6)]
  {
    var s' := State([At(3, 0, 3), At(1, 0, 4), At(2, 2, 0)], [2], 4, -1);
    assert s.rows[1].remaining > 0;
    Moves(FCFS, s, s');
    FcfsFrom4(s');
  }

  lemma FcfsFrom2(s: State)
    requires s == State([At(3, 1, 0), At(1, 1, 0), At(2, 2, 0)], [1, 2], 2, 0) && Inv(s)
    ensures Run(FCFS, s).rows == [At(3, 0, 3), At(1, 0, 4), At(2, 0, 6)]
  {
    var s' := State([At(3, 0, 3), At(1, 1, 0), At(2, 2, 0)], [1, 2], 3, -1);
    assert s.rows[0].remaining > 0;
    Moves(FCFS, s, s');
    FcfsFrom3(s');
  }

  lemma FcfsFrom1(s: State)
    requires s == State([At(3, 2, 0), At(1, 1, 0), At(2, 2, 0)], [1, 2], 1, 0) && Inv(s)
    ensures Run(FCFS, s).rows == [At(3, 0, 3), At(1, 0, 4), At(2, 0, 6)]
  {
    var s' := State([At(3, 1, 0), At(1, 1, 0), At(2, 2, 0)], [1, 2], 2, 0);
    assert s.rows[0].remaining > 0;
    Moves(FCFS, s, s');
    FcfsFrom2(s');
  }

  lemma FcfsFrom0(s: State)
    requires s == State([At(3, 3, 0), At(1, 1, 0), At(2, 2, 0)], [], 0, -1) && Inv(s)
    ensures Run(FCFS, s).rows == [At(3, 0, 3), At(1, 0, 4), At(2, 0, 6)]
  {
    assert Arrivals(s.rows, 0, 1) == [0];
    assert Arrivals(s.rows, 0, 2) == [0, 1];
    assert Admitted(s) == [0, 1, 2];
    var s' := State([At(3, 2, 0), At(1, 1, 0), At(2, 2, 0)], [1, 2], 1, 0);
    assert s.rows[0].remaining > 0;
    Moves(FCFS, s, s');
    FcfsFrom1(s');
  }

  /** FCFS turnarounds are 3, 4 and 6: process 0 holds the CPU for
      ticks 0 to 2, process 1 for tick 3 and process 2 for ticks 4 and 5. */
  lemma FcfsExample(rows: seq<Row>)
    requires rows == Example()
    ensures Simulate(FCFS, rows).rows == [At(3, 0, 3), At(1, 0, 4), At(2, 0, 6)]
  {
    StartInv(rows);
    FcfsFrom0(Start(rows));
  }

  /** SjfFromK: from the state the SJF run reaches at tick K, the run ends
      with the final table of the example. */
  lemma SjfFrom6(s: State)
    requires s == State([At(3, 0, 6), At(1, 0, 1), At(2, 0, 3)], [], 6, -1) && Inv(s)
    ensures Run(SJF, s).rows == [At(3, 0, 6), At(1, 0, 1), At(2, 0, 3)]
  {
    Finished(SJF, s);
  }

  lemma SjfFrom5(s: State)
    requires s == State([At(3, 1, 0), At(1, 0, 1), At(2, 0, 3)], [], 5, 0) && Inv(s)
    ensures Run(SJF, s).rows == [At(3, 0, 6), At(1, 0, 1), At(2, 0, 3)]
  {
    var s' := State([At(3, 0, 6), At(1, 0, 1), At(2, 0, 3)], [], 6, -1);
    assert s.rows[0].remaining > 0;
    Moves(SJF, s, s');
    SjfFrom6(s');
  }

  lemma SjfFrom4(s: State)
    requires s == State([At(3, 2, 0), At(1, 0, 1), At(2, 0, 3)], [], 4, 0) && Inv(s)
    ensures Run(SJF, s).rows == [At(3, 0, 6), At(1, 0, 1), At(2, 0, 3)]
  {
    var s' := State([At(3, 1, 0), At(1, 0, 1), At(2, 0, 3)], [], 5, 0);
    assert s.rows[0].remaining > 0;
    Moves(SJF, s, s');
    SjfFrom5(s');
  }

  lemma SjfFrom3(s: State)
    requires s == State([At(3, 3, 0), At(1, 0, 1), At(2, 0, 3)], [0], 3, -1) && Inv(s)
    ensures Run(SJF, s).rows == [At(3, 0, 6), At(1, 0, 1), At(2, 0, 3)]
  {
    var s' := State([At(3, 2, 0), At(1, 0, 1), At(2, 0, 3)], [], 4, 0);
    assert s.rows[0].remaining > 0;
    Moves(SJF, s, s');
    SjfFrom4(s');
  }

  lemma SjfFrom2(s: State)
    requires s == State([At(3, 3, 0), At(1, 0, 1), At(2, 1, 0)], [0], 2, 2) && Inv(s)
    ensures Run(SJF, s).rows == [At(3, 0, 6), At(1, 0, 1), At(2, 0, 3)]
  {
    var s' := State([At(3, 3, 0), At(1, 0, 1), At(2, 0, 3)], [0], 3, -1);
    assert s.rows[0].remaining > 0;
    Moves(SJF, s, s');
    SjfFrom3(s');
  }

  lemma SjfFrom1(s: State)
    requires s == State([At(3, 3, 0), At(1, 0, 1), At(2, 2, 0)], [0, 2], 1, -1) && Inv(s)
    ensures Run(SJF, s).rows == [At(3, 0, 6), At(1, 0, 1), At(2, 0, 3)]
  {
    var s' := State([At(3, 3, 0), At(1, 0, 1), At(2, 1, 0)], [0], 2, 2);
    assert s.rows[0].remaining > 0;
    Moves(SJF, s, s');
    SjfFrom2(s');
  }

  lemma SjfFrom0(s: State)
    requires s == State([At(3, 3, 0), At(1, 1, 0), At(2, 2, 0)], [], 0, -1) && Inv(s)
    ensures Run(SJF, s).rows == [At(3, 0, 6), At(1, 0, 1), At(2, 0, 3)]
  {
    assert Arrivals(s.rows, 0, 1) == [0];
    assert Arrivals(s.rows, 0, 2) == [0, 1];
    assert Admitted(s) == [0, 1, 2];
    var s' := State([At(3, 3, 0), At(1, 0, 1), At(2, 2, 0)], [0, 2], 1, -1);
    assert s.rows[0].remaining > 0;
    Moves(SJF, s, s');
    SjfFrom1(s');
  }

  /** SJF turnarounds are 6, 1 and 3: the shortest job 1 runs at tick 0,
      then 2 for ticks 1 and 2, then 0 for ticks 3 to 5. */
  lemma SjfExample(rows: seq<Row>)
    requires rows == Example()
    ensures Simulate(SJF, rows).rows == [At(3, 0, 6), At(1, 0, 1), At(2, 0, 3)]
  {
    StartInv(rows);
    SjfFrom0(Start(rows));
  }

  /** SrtFromK: from the state the SRT run reaches at tick K, the run ends
      with the final table of the example. */
  lemma SrtFrom6(s: State)
    requires s == State([At(3, 0, 6), At(1, 0, 1), At(2, 0, 4)], [], 6, -1) && Inv(s)
    ensures Run(SRT, s).rows == [At(3, 0, 6), At(1, 0, 1), At(2, 0, 4)]
  {
    Finished(SRT, s);
  }

  lemma SrtFrom5(s: State)
    requires s == State([At(3, 1, 0), At(1, 0, 1), At(2, 0, 4)], [], 5, 0) && Inv(s)
    ensures Run(SRT, s).rows == [At(3, 0, 6), At(1, 0, 1), At(2, 0, 4)]
  {
    var s' := State([At(3, 0, 6), At(1, 0, 1), At(2, 0, 4)], [], 6, -1);
    assert s.rows[0].remaining > 0;
    Moves(SRT, s, s');
    SrtFrom6(s');
  }

  lemma SrtFrom4(s: State)
    requires s == State([At(3, 2, 0), At(1, 0, 1), At(2, 0, 4)], [0], 4, -1) && Inv(s)
    ensures Run(SRT, s).rows == [At(3, 0, 6), At(1, 0, 1), At(2, 0, 4)]
  {
    var s' := State([At(3, 1, 0), At(1, 0, 1), At(2, 0, 4)], [], 5, 0);
    assert s.rows[0].remaining > 0;
    Moves(SRT, s, s');
    SrtFrom5(s');
  }

  lemma SrtFrom3(s: State)
    requires s == State([At(3, 2, 0), At(1, 0, 1), At(2, 1, 0)], [2], 3, 0) && Inv(s)
    ensures Run(SRT, s).rows == [At(3, 0, 6), At(1, 0, 1), At(2, 0, 4)]
  {
    var s' := State([At(3, 2, 0), At(1, 0, 1), At(2, 0, 4)], [0], 4, -1);
    assert s.rows[0].remaining > 0;
    Moves(SRT, s, s');
    SrtFrom4(s');
  }

  lemma SrtFrom2(s: State)
    requires s == State([At(3, 3, 0), At(1, 0, 1), At(2, 1, 0)], [0], 2, 2) && Inv(s)
    ensures Run(SRT, s).rows == [At(3, 0, 6), At(1, 0, 1), At(2, 0, 4)]
  {
    var s' := State([At(3, 2, 0), At(1, 0, 1), At(2, 1, 0)], [2], 3, 0);
    assert s.rows[0].remaining > 0;
    Moves(SRT, s, s');
    SrtFrom3(s');
  }

  lemma SrtFrom1(s: State)
    requires s == State([At(3, 3, 0), At(1, 0, 1), At(2, 2, 0)], [0, 2], 1, -1) && Inv(s)
    ensures Run(SRT, s).rows == [At(3, 0, 6), At(1, 0, 1), At(2, 0, 4)]
  {
    var s' := State([At(3, 3, 0), At(1, 0, 1), At(2, 1, 0)], [0], 2, 2);
    assert s.rows[0].remaining > 0;
    Moves(SRT, s, s');
    SrtFrom2(s');
  }

  lemma SrtFrom0(s: State)
    requires s == State([At(3, 3, 0), At(1, 1, 0), At(2, 2, 0)], [], 0, -1) && Inv(s)
    ensures Run(SRT, s).rows == [At(3, 0, 6), At(1, 0, 1), At(2, 0, 4)]
  {
    assert Arrivals(s.rows, 0, 1) == [0];
    assert Arrivals(s.rows, 0, 2) == [0, 1];
    assert Admitted(s) == [0, 1, 2];
    var s' := State([At(3, 3, 0), At(1, 0, 1), At(2, 2, 0)], [0, 2], 1, -1);
    assert s.rows[0].remaining > 0;
    Moves(SRT, s, s');
    SrtFrom1(s');
  }

  /** SRT turnarounds are 6, 1 and 4: at tick 2 the only queued process, 0
      with 3 units left, preempts process 2 with 1 unit left, and 2 only
      finishes at tick 3, one tick later than under SJF. */
  lemma SrtExample(rows: seq<Row>)
    requires rows == Example()
    ensures Simulate(SRT, rows).rows == [At(3, 0, 6), At(1, 0, 1), At(2, 0, 4)]
  {
    StartInv(rows);
    SrtFrom0(Start(rows));
  }
}
