/** The process table: one row per simulated process, its five columns, the
    parameter check, the construction of the three identical tables, and the
    "is any work left" scan that guards every simulation loop. */
module Registry {

  /** One row of the table. The source stores it as an int[5] whose columns
      are, in order: active flag, arrival tick, total CPU time, remaining CPU
      time and turnaround time (-1 until the process completes). */
  datatype Row = Row(active: int, arrival: int, total: int, remaining: int, turnaround: int)

  /** The column a selection scan compares: SJF compares total CPU time,
      SRT compares remaining CPU time. */
  datatype Key = TotalTime | RemainingTime

  function KeyOf(r: Row, key: Key): int
  {
    match key
    case TotalTime => r.total
    case RemainingTime => r.remaining
  }

  /** The row a process starts with: active, nothing consumed, no turnaround yet. */
  function InitialRow(arrival: int, total: int): Row
  {
    Row(1, arrival, total, total, -1)
  }

  /** A table as the workload generator leaves it, restricted to the inputs the
      simulations can finish on: arrivals are not negative and every process
      needs at least one tick of CPU. */
  ghost predicate Schedulable(rows: seq<Row>)
  {
    forall i :: 0 <= i < |rows| ==>
      rows[i] == InitialRow(rows[i].arrival, rows[i].total) && rows[i].arrival >= 0 && rows[i].total >= 1
  }

  /** Some process still needs CPU time (its remaining column is positive). */
  predicate AnyRemaining(rows: seq<Row>)
  {
    exists i :: 0 <= i < |rows| && rows[i].remaining > 0
  }

  /** Every process has finished: nothing remains, it is inactive, and its
      turnaround is at least its own CPU demand. */
  ghost predicate Completed(rows: seq<Row>)
  {
    forall i :: 0 <= i < |rows| ==>
      rows[i].remaining == 0 && rows[i].active == 0 && rows[i].turnaround >= rows[i].total
  }

  /** The total outstanding CPU demand of the table. */
  function Work(rows: seq<Row>): (w: int)
    ensures (forall i :: 0 <= i < |rows| ==> rows[i].remaining >= 0) ==> w >= 0
    ensures (forall i :: 0 <= i < |rows| ==> rows[i].remaining >= 0) ==> (w == 0 <==> !AnyRemaining(rows))
  {
    if rows == [] then 0 else Work(rows[..|rows| - 1]) + rows[|rows| - 1].remaining
  }

  /** Lowering one row's remaining column by d lowers the outstanding demand by d. */
  lemma {:induction false} WorkUpdate(rows: seq<Row>, p: nat, r: Row)
    requires p < |rows|
    ensures Work(rows[p := r]) == Work(rows) - rows[p].remaining + r.remaining
    decreases |rows|
  {
    var n := |rows| - 1;
    if p < n {
      assert rows[p := r][..n] == rows[..n][p := r];
      WorkUpdate(rows[..n], p, r);
    } else {
      assert rows[p := r][..n] == rows[..n];
    }
  }

  /** The latest arrival tick in the table (0 for an empty table). */
  function MaxArrival(rows: seq<Row>): (m: int)
    ensures forall i :: 0 <= i < |rows| ==> rows[i].arrival <= m
  {
    if rows == [] then 0
    else
      var m := MaxArrival(rows[..|rows| - 1]);
      if rows[|rows| - 1].arrival > m then rows[|rows| - 1].arrival else m
  }

  /** Changing a row without changing its arrival keeps the latest arrival. */
  lemma {:induction false} MaxArrivalUpdate(rows: seq<Row>, p: nat, r: Row)
    requires p < |rows| && r.arrival == rows[p].arrival
    ensures MaxArrival(rows[p := r]) == MaxArrival(rows)
    decreases |rows|
  {
    var n := |rows| - 1;
    if p < n {
      assert rows[p := r][..n] == rows[..n][p := r];
      MaxArrivalUpdate(rows[..n], p, r);
    } else {
      assert rows[p := r][..n] == rows[..n];
    }
  }

  /** The parameter check made before anything is generated: the run is
      refused when any of D, V, N or K is not positive. The tables are only
      built from parameters that pass it (see InitSystem). */
  predicate ValidParams(k: int, d: real, v: real, n: int)
  {
    if d <= 0.0 || v <= 0.0 || n <= 0 || k <= 0 then false else true
  }

  /** Builds the three tables, from parameters that passed ValidParams. The
      random draws are parameters: arrivals[i] is the value drawn in [0, k)
      for process i and totals[i] its CPU time after the Gaussian draw with
      mean d and deviation v and the cast. The same values go into all three
      tables, which are distinct arrays. */
  method InitSystem(n: nat, k: int, d: real, v: real, arrivals: seq<int>, totals: seq<int>)
    returns (system1: array<Row>, system2: array<Row>, system3: array<Row>)
    requires ValidParams(k, d, v, n)
    requires |arrivals| == n && |totals| == n
    requires forall i :: 0 <= i < n ==> 0 <= arrivals[i] < k
    ensures fresh(system1) && fresh(system2) && fresh(system3)
    ensures system1 != system2 && system2 != system3 && system1 != system3
    ensures system1.Length == n
    ensures forall i :: 0 <= i < n ==> system1[i] == InitialRow(arrivals[i], totals[i])
    ensures forall i :: 0 <= i < n ==> 0 <= system1[i].arrival < k
    ensures system2[..] == system1[..] && system3[..] == system1[..]
  {
    system1 := new Row[n];
    system2 := new Row[n];
    system3 := new Row[n];
    for i := 0 to n
      invariant forall j :: 0 <= j < i ==> system1[j] == InitialRow(arrivals[j], totals[j])
      invariant forall j :: 0 <= j < i ==> system2[j] == system1[j] && system3[j] == system1[j]
    {
      var active := 1;
      var arrivalTime := arrivals[i];
      var totalCpuTime := totals[i];
      system1[i] := Row(active, arrivalTime, totalCpuTime, totalCpuTime, -1);
      system2[i] := Row(active, arrivalTime, totalCpuTime, totalCpuTime, -1);
      system3[i] := Row(active, arrivalTime, totalCpuTime, totalCpuTime, -1);
    }
  }

  /** The scan that guards every simulation loop: true as soon as one row
      has remaining CPU time above zero. */
  method HasRemaining(system: array<Row>) returns (b: bool)
    ensures b <==> AnyRemaining(system[..])
  {
    for i := 0 to system.Length
      invariant forall j :: 0 <= j < i ==> system[j].remaining <= 0
    {
      if system[i].remaining > 0 {
        return true;
      }
    }
    return false;
  }
}
