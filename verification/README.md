# CPU scheduling simulator, modelled in Dafny

The program builds one table of N processes. Each row of the table has five
columns:

- active flag;
- arrival tick;
- total CPU time;
- remaining CPU time;
- turnaround.

It copies the table three times. It then runs three tick-by-tick
simulations, one on each copy:

- first come, first served (FCFS);
- non-preemptive shortest job first (SJF);
- the code's shortest-remaining-time rule (SRT).

Each simulation keeps a tick `t`, a current process (`-1` when the CPU is
free) and a ready queue. Every iteration of its loop does three things:

1. It appends the processes that arrive at `t` to the tail of the queue.
2. It applies the policy's dispatch rule.
3. It serves the current process for one unit, or idles.

When a process's remaining time reaches 0, its turnaround `t - arrival + 1`
is written, it becomes inactive and the CPU is freed.

The model has six modules:

- `Registry`: the rows, the parameter check, the construction of the three
  tables and the `anyRemaining` scan.
- `ReadyQueue`: the arrival scan, the first-minimum scan and the
  removal of the first occurrence, as functions on sequences.
- `Engine`: the loops as a state machine, in pure functions.
  - `Tick(p, s)` is one loop iteration of policy `p`.
  - `Run(p, s)` iterates `Tick` until the loop's exit test holds.
  - `Simulate(p, rows)` is the run from tick 0.
  - The invariant `Inv` holds for every row and for the queue and CPU
    together. Queue and CPU hold each arrived, unfinished process exactly
    once, and nothing else.
  - The run terminates on the measure (outstanding demand, ticks to the last
    arrival).
- `Simulator`: the three loops as methods on an `array<Row>` that is
  updated in place. Each loop is proved to leave the array equal to
  `Simulate(p, ...)`. It also ends with every process finished (FCFS, SRT),
  or finished or stopped at tick 101 (SJF).
- `Policies`: what each dispatch rule guarantees about the process it
  serves.
- `Scenario`: three processes that all arrive at tick 0 with demands 3, 1
  and 2, followed through each policy to the final table.

Two behaviours of the code differ from the textbook policies. The model
follows the code:

- The SJF loop also stops once `t > 100`, even with work left
  (`SimulateSjf`, `SjfExit`, `SjfCapLeavesWork`).
- The SRT loop compares only the queued processes with each other, never
  with the running process. The running process is preempted whenever
  another process waits. In the scenario, SRT yields turnarounds 6, 1, 4
  rather than the 6, 1, 3 of true SRT (`SrtExample`,
  `SrtPreemptsShorterRunning`).

## Model

| member | source | states |
|---|---|---|
| Registry.ValidParams | OS_Scheduling.java:63-69 | the parameter check, false exactly when D, V, N or K is not positive. It is the precondition of `InitSystem`, as `main` builds the tables only after the check succeeds (OS_Scheduling.java:42-48) |
| Registry.InitSystem | OS_Scheduling.java:80-112 | called only with parameters that pass `ValidParams`, it builds three fresh, distinct tables of length N. Row i of the first starts active, with the drawn arrival in [0, K), remaining equal to total and turnaround -1. The other two tables hold the same values |
| Registry.HasRemaining | OS_Scheduling.java:164-171 | true exactly when some row has remaining time above 0 |
| Registry.Work | OS_Scheduling.java:164-171 | total outstanding demand. With no negative remaining column it is at least 0, and it is 0 exactly when no row has remaining time |
| ReadyQueue.Arrivals | OS_Scheduling.java:125-133 | the arrival scan appends only indices below N whose arrival is the current tick |
| ReadyQueue.ArrivalsCount | OS_Scheduling.java:125-133 | the scan appends each index exactly once when its arrival is the current tick, and otherwise not at all |
| ReadyQueue.ArrivalsIncreasing | OS_Scheduling.java:125-133 | processes that arrive on the same tick are appended in increasing index order |
| ReadyQueue.FirstMin | OS_Scheduling.java:193-201 | the selected position lies within the non-empty queue |
| ReadyQueue.FirstMinIsFirstMinimum | OS_Scheduling.java:193-201 | the selected key is at most every queued key and strictly below the key of every earlier queue position (strict `<`, so the first minimum wins ties) |
| ReadyQueue.FirstMinUnique | OS_Scheduling.java:249-257 | any position that satisfies the first-minimum property is the one selected |
| ReadyQueue.RemoveFirstOccurrence | OS_Scheduling.java:204 | `LinkedList.removeFirstOccurrence` on the queue (also at OS_Scheduling.java:260): the queue without its first copy of x, never longer than the queue; its effect is stated by the two lemmas below |
| ReadyQueue.RemoveFirstOccurrenceCount | OS_Scheduling.java:204 | removing the first occurrence takes exactly one copy of a present process out of the queue's multiset, and leaves a queue without it unchanged |
| ReadyQueue.RemoveFirstOccurrenceAt | OS_Scheduling.java:260 | removing the first occurrence of the element at a first-occurrence position j drops exactly position j |
| Engine.StartInv | OS_Scheduling.java:116-118 | before the first tick (t = 0, empty queue, no current process) the loop invariant holds for a table built by the generator |
| Engine.AdmitPool | OS_Scheduling.java:125-133 | after the arrival scan, queue and CPU hold exactly the arrived, unfinished processes, each once, and the current process is not queued |
| Engine.Dispatch | OS_Scheduling.java:135-144 | each policy's dispatch leaves the CPU free only when nothing is queued or running, and then the queue is empty |
| Engine.DispatchKeepsPool | OS_Scheduling.java:249-267 | each policy's dispatch moves processes between queue and CPU without losing or duplicating any |
| Engine.Serve | OS_Scheduling.java:150-159 | one unit of service: only row c changes, its remaining time drops by one, and arrival and total are kept. On reaching 0 the turnaround is t - arrival + 1, the row becomes inactive and the CPU is freed. Otherwise the process keeps the CPU |
| Engine.TickInv | OS_Scheduling.java:121-160 | every iteration of every loop preserves the invariant |
| Engine.TickServesOne | OS_Scheduling.java:218-226 | an iteration serves one arrived, unfinished process and lowers its remaining time by exactly one, leaving every other row unchanged. On completion the turnaround is t - arrival + 1 >= 1, the row is inactive and the CPU is freed. An idle iteration only advances t. Arrival and total are never written |
| Engine.TickProgress | OS_Scheduling.java:269-273 | a serving iteration lowers the outstanding demand by exactly one. An idle iteration with work left happens only before the last arrival and brings the clock closer to it |
| Engine.Stops | OS_Scheduling.java:180-181 | the exit test evaluated before each iteration: no row has remaining time above 0 (the `anyRemaining` test, also at OS_Scheduling.java:121 and 237), or, for SJF only, t > 100 |
| Engine.Tick | OS_Scheduling.java:124-159 | one iteration of a loop body (also OS_Scheduling.java:182-226 and 239-288): the arrival scan, the policy's dispatch, then one unit of service or an idle tick; t always advances by one. Its effect is stated by `TickInv`, `TickServesOne` and `TickProgress` |
| Engine.Run | OS_Scheduling.java:121 | the simulation ends in a state that satisfies the invariant and the loop's exit test, with the same arrivals and totals |
| Engine.Simulate | OS_Scheduling.java:116-118 | the whole run of a policy from its start state: t = 0, an empty queue and no current process, on a table the generator builds; it is the state the loop methods are proved to reach |
| Engine.RunAccounting | OS_Scheduling.java:121-160 | a run lasts at most the outstanding demand plus the ticks to the last arrival, and serves at most one unit per tick |
| Engine.RunCompletes | OS_Scheduling.java:237 | when the FCFS or SRT loop exits, every row has remaining 0, is inactive, and has a turnaround between its demand and the ticks since its arrival |
| Engine.SimulationLength | OS_Scheduling.java:115-161 | an FCFS or SRT simulation lasts at least the total demand and at most the total demand plus the latest arrival |
| Engine.SjfRunBound | OS_Scheduling.java:181 | the SJF loop never runs past tick 101 |
| Engine.SjfExit | OS_Scheduling.java:180-181 | the SJF loop exits with every process finished, or at tick 101 with work left |
| Engine.SjfCompletesWithinCap | OS_Scheduling.java:181 | when the total demand plus the latest arrival is at most 100, SJF finishes every process |
| Engine.SjfCapLeavesWork | OS_Scheduling.java:181 | when the total demand exceeds 101, SJF stops with work left |
| Simulator.AdmitArrivals | OS_Scheduling.java:125-133 | the arrival loop appends exactly the scan's arrivals to the queue tail |
| Simulator.SelectFirstMin | OS_Scheduling.java:193-201 | the selection loop returns -1 for an empty queue, and otherwise the queued process at the first-minimum position |
| Simulator.ServeCurrent | OS_Scheduling.java:150-159 | the service block updates the table and the current process in place, as one unit of service prescribes |
| Simulator.PreemptLeastRemaining | OS_Scheduling.java:249-267 | the SRT selection and preemption block computes the SRT dispatch |
| Simulator.FcfsStep | OS_Scheduling.java:124-159 | one FCFS loop body is one FCFS tick of the state machine |
| Simulator.SjfStep | OS_Scheduling.java:182-226 | one SJF loop body is one SJF tick of the state machine |
| Simulator.SrtStep | OS_Scheduling.java:239-288 | one SRT loop body is one SRT tick of the state machine |
| Simulator.SimulateFcfs | OS_Scheduling.java:115-161 | the array ends as the FCFS run prescribes, with every process finished |
| Simulator.SimulateSjf | OS_Scheduling.java:174-228 | the array ends as the SJF run prescribes: every process finished, or stopped at tick 101 with work left |
| Simulator.SimulateSrt | OS_Scheduling.java:231-290 | the array ends as the SRT run prescribes, with every process finished |
| Policies.NonPreemptive | OS_Scheduling.java:135-144 | under FCFS and SJF, a process holding the CPU keeps it and the queue is left as admitted |
| Policies.FcfsTickKeepsOrder | OS_Scheduling.java:135-144 | the current process followed by the queue stays in first-come order (arrival tick, then index) from tick to tick |
| Policies.FcfsServesEarliest | OS_Scheduling.java:135-144 | the process FCFS serves came before every other process that is waiting at that tick |
| Policies.SjfPicksShortest | OS_Scheduling.java:191-205 | with the CPU free and a process ready, SJF serves the first queued process with the least total CPU time and removes only that occurrence. No ready process has a smaller total |
| Policies.SrtServesLeastQueued | OS_Scheduling.java:249-267 | with a non-empty queue, SRT serves the first queued process with the least remaining time, removes that occurrence, and sends a running process to the tail |
| Policies.SrtKeepsCurrentWhenQueueEmpty | OS_Scheduling.java:259-273 | with nothing queued, SRT keeps the running process, or idles |
| Policies.SrtPreemptsShorterRunning | OS_Scheduling.java:259-266 | a running process with 1 unit left is preempted by a waiting process with 3 units left |
| Scenario.Example | OS_Scheduling.java:80-112 | the example table is one the generator can build |
| Scenario.FcfsExample | OS_Scheduling.java:115-161 | for demands 3, 1, 2 all arriving at tick 0, FCFS turnarounds are 3, 4 and 6 |
| Scenario.SjfExample | OS_Scheduling.java:174-228 | for the same table, SJF turnarounds are 6, 1 and 3 |
| Scenario.SrtExample | OS_Scheduling.java:231-290 | for the same table, SRT turnarounds are 6, 1 and 4 |

## Left out

- Console input and prompts (OS_Scheduling.java:29-45), and the orchestration in `main` (OS_Scheduling.java:42-55). These are I/O. `ValidParams` models the check that `main` acts on.
- `printResults` (OS_Scheduling.java:292-307): console output, and a floating-point average.
- The `DEBUG` printing (OS_Scheduling.java:146-148, 213-215, 275-277): console output behind a constant that is false.
- `Random`, the Gaussian draw and the cast to int (OS_Scheduling.java:87, 90). The drawn arrivals and totals are parameters of `InitSystem`.
- Registry.InitSystem: requires each drawn arrival in [0, K), as the draw guarantees, and parameters that pass `ValidParams`, as `main` ensures. It does not require totals of at least 1.
- Simulator.SimulateFcfs, Simulator.SimulateSjf, Simulator.SimulateSrt: require every total to be at least 1. The cast truncates toward zero, so the code can produce a total of 0 or less. The remaining time of such a process goes below 0 and never reaches 0. The FCFS loop then runs forever once such a process holds the CPU. The SRT loop runs forever once two or more such processes wait, since they keep preempting each other. In other cases the loops can still end, leaving a row with negative remaining time and turnaround -1. The SJF loop always stops by t = 101. The model excludes every such table, so it does not describe these runs.
- 32-bit `int` arithmetic: the model uses unbounded integers, so overflow of `t` is not modelled.
- The `Integer.MAX_VALUE` start value of the SJF and SRT scans. It is modelled as "no candidate yet". The two differ only when every queued key equals `Integer.MAX_VALUE`: the code then selects nothing. SJF then goes on with `currentProcess` at -1, and `system[-1][3]--` (OS_Scheduling.java:218) throws `ArrayIndexOutOfBoundsException`. SRT then keeps the running process, or idles.
- The `LinkedList` queue is a value sequence, local to each loop. The three tables are distinct arrays, updated in place.
- No claim compares average turnaround across the policies: the code does not guarantee one.
