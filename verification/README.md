# Supervisor pid table and worker sampler, modelled in Dafny

The system is a terminal supervisor that spawns worker processes, tracks
their pids in a growable array and signals them. Each worker writes the pair
{0,0} and then {1,1} into a shared record, one field at a time. A one-shot
timer interrupts it, and the SIGALRM handler records which of the four
combinations it saw. After `NUM_REPETITIONS` samples, the worker prints the
four counters, unless SIGUSR2 has switched its output off.

The model has three modules:

- `PidTable` (`pid_table.dfy`). The supervisor's table is an immutable
  `seq<int>` of pids with a capacity and an "array allocated" flag. It has
  append with capacity doubling, remove-at-index, and the three operations
  that walk the table (`kill_last_child`, `kill_all_children`,
  `signal_all_children`). It also has the table-reset part of
  `cleanup_resources`. Each `kill()` outcome is an input: success, ESRCH, or
  another error. For a walk over the table, the outcomes arrive as a
  sequence indexed by table position. `kill_all_children` is written twice:
  - as the in-place tail-to-head loop the supervisor runs;
  - as a reference filter over the pids.

  The two are proved equal.
- `Histogram` (`histogram.dfy`). The shared pair, the handler's four-way
  classification and the four counters.
- `Worker` (`worker.dfy`). The worker as a transition system. A program
  counter walks the statements of `main`'s sampling loop. Each step is one
  event:
  - the main flow executes one statement (whether `setitimer` succeeds is an
    input);
  - the pending one-shot timer fires and `handle_alarm` runs to completion;
  - a control signal arrives and `handle_usr_signals` runs.

  Any interleaving of events is a possible run. The model has two loop
  layouts:
  - `AsWritten` follows the source: the timer is re-armed at the bottom of the
    loop, and `g_alarm_flag` is cleared at the top.
  - `ClearBeforeArm` clears the flag before every arm (see Findings).

`add_child_pid` kills and reaps the new child only when `realloc` fails
(src/parent.c:480-487); the capacity-overflow branch (src/parent.c:474-477)
aborts without touching it, so `AddResult.CapacityOverflow` carries no reaped
pid.

Linux values are used for the platform constants:
- SIGUSR1 = 10, SIGUSR2 = 12, SIGALRM = 14;
- a 64-bit `size_t`;
- a 4-byte `pid_t`.

## Model

| member | source | states |
|---|---|---|
| PidTable.InitialTable | src/parent.c:210-213 | before start-up allocation the table has no array, no entries and capacity 0, and is valid |
| PidTable.AllocateTable | src/parent.c:111-119 | after the start-up malloc the table is empty, valid, allocated, with capacity INITIAL_CHILD_CAPACITY (8) |
| PidTable.AddChildPid | src/parent.c:470-494 | on success the pid is appended at the tail, the count rises by one, and earlier entries are unchanged. Capacity grows only on a full table, to 8 from 0 or to twice the old value, and never shrinks. Validity (count ≤ capacity ≤ SIZE_MAX/sizeof(pid_t)) is preserved. An abort happens only while growing. On a valid full table within the overflow bound, the table grows iff realloc succeeds, and a failed realloc aborts after reaping the new pid. On a valid full table the overflow abort happens iff the grown capacity exceeds SIZE_MAX/sizeof(pid_t) |
| PidTable.GrowthNeverWraps | src/parent.c:472-474 | on a valid table the doubled capacity (computed with size_t wrap-around) never wraps, so the `new_capacity < g_child_capacity` guard never fires |
| PidTable.RemoveChildPidAtIndex | src/parent.c:507-522 | for an index below the count, the result is the table without that entry (`s[..i] + s[i+1..]`), with the count one lower. An index at or past the count leaves the table unchanged. Capacity never changes and validity is kept |
| PidTable.KillLastChild | src/parent.c:732-767 | on an empty table nothing happens. Otherwise the tail pid is targeted: on success or ESRCH exactly the tail entry is removed, and on any other error the table is untouched. The outcome says which case happened |
| PidTable.Survivors | src/parent.c:568-596 | the entries left after a kill walk number exactly the kills that failed with a non-ESRCH error |
| PidTable.SurvivorsMembership | src/parent.c:576-592 | a pid stays tracked iff one of its entries had its kill fail with an error other than ESRCH |
| PidTable.SurvivorsInOrder | src/parent.c:568-596 | the entries left are exactly the pids at the positions whose kill failed with a non-ESRCH error, in increasing position order, so their relative order is kept |
| PidTable.KillAll | src/parent.c:551-596 | an empty table is left as is. Otherwise the count falls by the number of deliveries plus ESRCH results, capacity is unchanged, and validity is kept |
| PidTable.KillAllChildren | src/parent.c:568-596 | the in-place tail-to-head walk, which removes on success or ESRCH, ends with exactly the table of the reference filter `KillAll` |
| PidTable.SignalAllChildren | src/parent.c:618-649 | the table is not changed. The success count is the number of deliveries and the "already exited" count is the number of ESRCH results. Their sum falls short of the count by exactly the number of other errors |
| PidTable.CleanupResources | src/parent.c:344-351 | whatever the kill outcomes, a valid table ends with count 0, capacity 0 and no array |
| PidTable.CleanupIdempotent | src/parent.c:344-351 | a second cleanup finds an empty table, issues no kill, and changes nothing |
| PidTable.ThreeSpawnsInOrder | src/parent.c:492 | the table lists children in spawn order |
| PidTable.AddThenKillLast | src/parent.c:741-767 | killing the last child right after adding it, with success or ESRCH, targets that child and restores the previous entries |
| PidTable.KillAllOfOneIsKillLast | src/parent.c:568-596 | on a one-entry table, killing all children and killing the last one leave the same table |
| Histogram.Classify | src/child.c:198-201 | a pair of bits is classified into the bucket that names it. Every other pair goes to the 11 bucket |
| Histogram.Record | src/child.c:198-201 | recording a sample adds one to its bucket, leaves the other three unchanged, and adds one to the total |
| Worker.InitializeGlobals | src/child.c:167-177 | a fresh worker has pair {0,0}, all four counters 0, no repetitions, the flag down and output enabled |
| Worker.HandleAlarm | src/child.c:192-208 | a signal other than SIGALRM changes nothing. SIGALRM adds one to exactly the bucket the current pair selects and leaves the other three unchanged. It raises the flag and advances the repetition counter iff it is below NUM_REPETITIONS, so the counter never passes 10001. It touches nothing else |
| Worker.HandleUsr | src/child.c:221-228 | SIGUSR1 turns the output gate on, SIGUSR2 turns it off, and any other signal changes nothing. Only the gate is ever touched |
| Worker.MainStep | src/child.c:102-150 | the main flow never touches the counters, the repetition count or the gate. It writes v1 only at the v1 write and v2 only at the v2 write; the two writes store the current phase's value (0 or 1) and the second flips the phase, so the flow alternates {0,0} and {1,1}. It clears the flag only at the top of the loop. It arms a timer only at a `setup_timer()` that succeeds. After the single read of the gate, the report is the stats line iff the gate was on and the suppression notice iff it was off |
| Worker.SamplingInvariants | src/child.c:106-130 | under every interleaving of main-flow steps, timer firings and control signals (in either layout), both fields stay in {0,1} and are equal except between the two writes, the repetition counter stays within [0, NUM_REPETITIONS], and the four counters sum to it |
| Worker.FinishedRunReport | src/child.c:106-150 | a finished run has written either the stats or the suppression notice. The reported counters sum to the repetitions done, which are NUM_REPETITIONS, or fewer exactly when a re-arm failed and the loop stopped early |
| Worker.DoneIsFinal | src/child.c:134-156 | after the report nothing changes the report, the counters or the repetition count, whatever events follow |
| Worker.AllFourReachable | src/child.c:110-119 | for each of the four combinations {0,0}, {0,1}, {1,0} and {1,1} there is an interleaving in which the handler counts it |
| Worker.LastWriteWins | src/child.c:221-228 | after any sequence of control signals, the gate is what the last SIGUSR1/SIGUSR2 among them set (or its earlier value if there was none), and nothing else changes. In particular, repeating a signal is idempotent |
| Worker.StuckIsForever | src/child.c:106-120 | a worker spinning in the inner loop with the flag down and no timer pending stays so under every event. It never samples again and never reports |
| Worker.LostWakeupAsWritten | src/child.c:102-110 | in the loop as written, a firing between `setup_timer()` and `g_alarm_flag = 0` leaves the worker stuck after one sample |
| Worker.NoLostWakeup | src/child.c:102-130 | with the flag cleared before each arm, no reachable state is stuck |

## Left out

- Terminal I/O is not modelled: raw mode, the keyboard dispatch loop, `safe_write` and all `printf`/`fprintf`/`fflush` logging. The model keeps only which report the worker writes and which counts each walk produces.
- `list_children` is not modelled. It only formats the table into text.
- `spawn_child`, `fork`/`execv`, the signal-disposition reset, `sigaction` registration and executable-path discovery are not modelled. They are OS calls. Their effect on the table is `AddChildPid`, with the realloc outcome as an input.
- The SIGCHLD `waitpid` reaper is not modelled. It runs asynchronously and never touches the table.
- `setitimer`, real time and the 500 µs interval are replaced by the interleaving of `TimerFires` events with main-flow steps. Whether `setitimer` succeeds is the `timerOk` input.
- A SIGALRM sent from outside the worker is not a transition. Only the worker's own one-shot timer fires. `HandleAlarm` on its own still keeps the counter from passing NUM_REPETITIONS.
- Signals that arrive before the worker's `register_signal_handlers` runs are not modelled. The supervisor ignores SIGUSR1 and SIGUSR2 (src/parent.c:448-451) and the child resets only SIGINT, SIGTERM, SIGQUIT and SIGCHLD before `execv` (src/parent.c:687-693), so an early SIGUSR1/SIGUSR2 is lost and the gate stays enabled; `Worker.LastWriteWins` holds for the signals delivered after registration. An early SIGALRM would end the worker.
- A failed first malloc exits the supervisor (src/parent.c:112-117). It is not a table state, so only the successful allocation is modelled.
- The PPID/PID values in the stats line are not modelled.
- Worker.HandleAlarm: the counters are unbounded integers. `long long` cannot overflow here, because every firing needs a timer armed while fewer than NUM_REPETITIONS samples were taken.
- PidTable.Survivors: its own contract states the length only. Membership is stated by `PidTable.SurvivorsMembership` and order by `PidTable.SurvivorsInOrder`.

## Findings

| source | as written | input that shows it | evidently intended | confidence | as-written member | corrected member |
|---|---|---|---|---|---|---|
| src/child.c:102-110 | the one-shot timer is armed (`setup_timer()` at line 102, and at line 124 for later rounds) before `g_alarm_flag = 0` runs at the top of the outer loop (line 107), so a firing in between is counted and then its flag is erased | from a fresh worker: first `setup_timer()` succeeds, the timer fires, the outer test passes, the flag is cleared; the inner loop then spins with the flag down and no timer pending, after 1 of 10001 samples, and never prints | clear the flag before arming each timer, so every firing's flag is seen by the inner loop | medium, not executed | Worker.LostWakeupAsWritten | Worker.NoLostWakeup |
