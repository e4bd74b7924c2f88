/**
 The supervisor's process table: a growable array of child pids with an
 explicit capacity, and the kill / broadcast protocol that walks it.

 Every `kill()` the supervisor issues is an input here: its outcome is one of
 `KillResult`, and the outcomes of a whole walk are passed as a sequence whose
 i-th element is what `kill()` returned for the entry at index i of the table.
 With that oracle every operation is a pure function of (table, outcomes).
 */
module PidTable {

  /** INITIAL_CHILD_CAPACITY: the first capacity the table grows to. */
  const INITIAL_CAPACITY: nat := 8
  /** SIZE_MAX of a 64-bit size_t. */
  const SIZE_MAX: nat := 0xFFFF_FFFF_FFFF_FFFF
  /** sizeof(pid_t). */
  const PID_SIZE: nat := 4
  /** Largest capacity the growth check admits (SIZE_MAX / sizeof(pid_t)). */
  const MAX_CAPACITY: nat := SIZE_MAX / PID_SIZE

  /** What one `kill()` call returned: 0, -1 with ESRCH, or -1 with any other errno. */
  datatype KillResult = Delivered | NoSuchProcess | OtherError

  /**
   The table: `pids` are the first `g_child_count` slots of the array,
   `capacity` is `g_child_capacity`, and `hasArray` says whether the array
   pointer is non-NULL.
   */
  datatype Table = Table(pids: seq<int>, capacity: nat, hasArray: bool) {
    /** The invariant every table the supervisor builds keeps. */
    predicate Valid() {
      && |pids| <= capacity <= MAX_CAPACITY
      && (hasArray <==> capacity > 0)
    }
  }

  /** How `add_child_pid` ends: the pid is tracked, or the supervisor aborts. */
  datatype AddResult =
    | Added(table: Table)
      /** The doubled capacity failed the overflow check; abort() without touching the child. */
    | CapacityOverflow
      /** realloc failed; the untracked child `reaped` was SIGKILLed and waited for, then abort(). */
    | ReallocFailed(reaped: int)

  /** What `kill_last_child` did. */
  datatype KillLastOutcome =
    | NoChildren
    | Killed(pid: int)
    | AlreadyGone(pid: int)
      /** Delivery failed for another reason; the entry stays tracked. */
    | KillFailed(pid: int)

  datatype KillLastResult = KillLastResult(table: Table, outcome: KillLastOutcome)

  /** The table as `initialize_globals` leaves it: NULL array, count and capacity 0. */
  function InitialTable(): (t: Table)
    ensures t.Valid() && |t.pids| == 0 && !t.hasArray
  {
    Table([], 0, false)
  }

  /** The table after `main`'s first malloc of INITIAL_CAPACITY slots succeeded. */
  function AllocateTable(): (t: Table)
    ensures t.Valid() && |t.pids| == 0 && t.hasArray
    ensures t.capacity == INITIAL_CAPACITY
  {
    Table([], INITIAL_CAPACITY, true)
  }

  /** The capacity growth computes, with size_t wrap-around made explicit. */
  function GrownCapacity(capacity: nat): nat {
    if capacity == 0 then INITIAL_CAPACITY else (capacity * 2) % (SIZE_MAX + 1)
  }

  /**
   `add_child_pid`: append `pid` at the tail, growing the array first when it
   is full. `reallocOk` is the outcome of the realloc call.
   */
  function AddChildPid(t: Table, pid: int, reallocOk: bool): (r: AddResult)
    // the pid lands at the tail and nothing before it moves
    ensures r.Added? ==>
              && |r.table.pids| == |t.pids| + 1
              && r.table.pids[..|t.pids|] == t.pids
              && r.table.pids[|t.pids|] == pid
    // no growth while there is room
    ensures |t.pids| < t.capacity ==> r.Added? && r.table.capacity == t.capacity
    // growth happens only on a full table and goes to 8 or to twice the old capacity
    ensures r.Added? && r.table.capacity != t.capacity ==>
              && |t.pids| >= t.capacity
              && r.table.capacity == (if t.capacity == 0 then INITIAL_CAPACITY else 2 * t.capacity)
    ensures r.Added? ==> t.capacity <= r.table.capacity
    ensures t.Valid() && r.Added? ==> r.table.Valid() && r.table.hasArray
    // the supervisor aborts only while growing; on realloc failure it has reaped the new child
    ensures !r.Added? ==> |t.pids| >= t.capacity
    ensures r.ReallocFailed? ==> r.reaped == pid && !reallocOk
    // past the overflow check, the table grows exactly when realloc succeeds
    ensures t.Valid() && |t.pids| >= t.capacity && GrownCapacity(t.capacity) <= MAX_CAPACITY ==>
              (r.Added? <==> reallocOk) && (!reallocOk ==> r == ReallocFailed(pid))
    ensures t.Valid() && |t.pids| >= t.capacity ==>
              (r.CapacityOverflow? <==> GrownCapacity(t.capacity) > MAX_CAPACITY)
  {
    if |t.pids| >= t.capacity then
      var newCapacity := GrownCapacity(t.capacity);
      if newCapacity < t.capacity || newCapacity > MAX_CAPACITY then
        CapacityOverflow
      else if !reallocOk then
        ReallocFailed(pid)
      else
        Added(Table(t.pids + [pid], newCapacity, true))
    else
      Added(t.(pids := t.pids + [pid]))
  }

  /** On a valid table the `new_capacity < g_child_capacity` wrap-around guard never fires. */
  lemma GrowthNeverWraps(t: Table)
    requires t.Valid()
    ensures GrownCapacity(t.capacity) >= t.capacity
    ensures t.capacity > 0 ==> GrownCapacity(t.capacity) == 2 * t.capacity
  {
  }

  /**
   `remove_child_pid_at_index`: memmove every later slot down by one and
   decrement the count; an index at or past the count is reported and ignored.
   */
  function RemoveChildPidAtIndex(t: Table, index: nat): (r: Table)
    ensures index < |t.pids| ==> r.pids == t.pids[..index] + t.pids[index + 1..]
    ensures index < |t.pids| ==> |r.pids| == |t.pids| - 1
    ensures index >= |t.pids| ==> r == t
    ensures r.capacity == t.capacity && r.hasArray == t.hasArray
    ensures t.Valid() ==> r.Valid()
  {
    if index >= |t.pids| then
      t
    else
      var shifted := seq(|t.pids| - 1, j requires 0 <= j < |t.pids| - 1 =>
                           if j < index then t.pids[j] else t.pids[j + 1]);
      assert shifted == t.pids[..index] + t.pids[index + 1..];
      t.(pids := shifted)
  }

  /**
   `kill_last_child`: SIGKILL the most recently added child; drop its entry
   when the signal was delivered or the process is already gone.
   */
  function KillLastChild(t: Table, result: KillResult): (r: KillLastResult)
    ensures |t.pids| == 0 <==> r.outcome == NoChildren
    ensures |t.pids| == 0 ==> r.table == t
    ensures |t.pids| > 0 && result != OtherError ==>
              r.table.pids == t.pids[..|t.pids| - 1]
    ensures |t.pids| > 0 && result == OtherError ==> r.table == t
    ensures |t.pids| > 0 ==> r.outcome.pid == t.pids[|t.pids| - 1]
    ensures r.outcome.Killed? <==> |t.pids| > 0 && result == Delivered
    ensures r.outcome.AlreadyGone? <==> |t.pids| > 0 && result == NoSuchProcess
    ensures r.table.capacity == t.capacity && r.table.hasArray == t.hasArray
  {
    if |t.pids| == 0 then
      KillLastResult(t, NoChildren)
    else
      var last := |t.pids| - 1;
      var pid := t.pids[last];
      match result
      case Delivered => KillLastResult(RemoveChildPidAtIndex(t, last), Killed(pid))
      case NoSuchProcess => KillLastResult(RemoveChildPidAtIndex(t, last), AlreadyGone(pid))
      case OtherError => KillLastResult(t, KillFailed(pid))
  }

  /** How many of `results` equal `k`. */
  function CountOf(results: seq<KillResult>, k: KillResult): nat
  {
    if |results| == 0 then 0
    else (if results[0] == k then 1 else 0) + CountOf(results[1..], k)
  }

  /** Counting one more outcome at the end of a prefix. */
  lemma {:induction false} CountOfSnoc(results: seq<KillResult>, i: nat, k: KillResult)
    requires i < |results|
    ensures CountOf(results[..i + 1], k) == CountOf(results[..i], k) + (if results[i] == k then 1 else 0)
  {
    if i == 0 {
      assert results[..1][1..] == [];
    } else {
      assert results[..i + 1][1..] == results[1..][..i];
      assert results[..i][1..] == results[1..][..i - 1];
      CountOfSnoc(results[1..], i - 1, k);
    }
  }

  /** Every outcome is exactly one of the three kinds. */
  lemma {:induction false} CountPartition(results: seq<KillResult>)
    ensures CountOf(results, Delivered) + CountOf(results, NoSuchProcess) + CountOf(results, OtherError)
            == |results|
  {
    if |results| > 0 {
      CountPartition(results[1..]);
    }
  }

  /**
   The entries that survive a kill walk: those whose `kill()` failed with an
   error other than ESRCH, in their original order.
   */
  function Survivors(pids: seq<int>, results: seq<KillResult>): (r: seq<int>)
    requires |pids| == |results|
    ensures |r| == CountOf(results, OtherError)
  {
    if |pids| == 0 then []
    else
      var rest := Survivors(pids[1..], results[1..]);
      assert pids == [pids[0]] + pids[1..];
      if results[0] == OtherError then [pids[0]] + rest else rest
  }

  /** A pid survives exactly when some occurrence of it had its kill fail with a non-ESRCH error. */
  lemma {:induction false} SurvivorsMembership(pids: seq<int>, results: seq<KillResult>, x: int)
    requires |pids| == |results|
    ensures x in Survivors(pids, results) <==>
            exists j :: 0 <= j < |pids| && pids[j] == x && results[j] == OtherError
  {
    if |pids| > 0 {
      SurvivorsMembership(pids[1..], results[1..], x);
      if exists j :: 0 <= j < |pids| && pids[j] == x && results[j] == OtherError {
        var j :| 0 <= j < |pids| && pids[j] == x && results[j] == OtherError;
        if j > 0 {
          assert pids[1..][j - 1] == x && results[1..][j - 1] == OtherError;
        }
      }
      if exists j :: 0 <= j < |pids| - 1 && pids[1..][j] == x && results[1..][j] == OtherError {
        var j :| 0 <= j < |pids| - 1 && pids[1..][j] == x && results[1..][j] == OtherError;
        assert pids[j + 1] == x && results[j + 1] == OtherError;
      }
    }
  }

  /**
   The survivors are an order-preserving selection: `idx` lists, in
   increasing order, exactly the positions whose kill failed with a
   non-ESRCH error, and the survivors are the pids at those positions.
   */
  lemma {:induction false} SurvivorsInOrder(pids: seq<int>, results: seq<KillResult>) returns (idx: seq<nat>)
    requires |pids| == |results|
    ensures |idx| == |Survivors(pids, results)|
    ensures forall k :: 0 <= k < |idx| ==>
              idx[k] < |pids| && results[idx[k]] == OtherError && Survivors(pids, results)[k] == pids[idx[k]]
    ensures forall k, l :: 0 <= k < l < |idx| ==> idx[k] < idx[l]
    ensures forall j :: 0 <= j < |pids| && results[j] == OtherError ==> j in idx
  {
    if |pids| == 0 {
      return [];
    }
    var tail := Survivors(pids[1..], results[1..]);
    var rest := SurvivorsInOrder(pids[1..], results[1..]);
    var shifted := ShiftIndices(pids, results, tail, rest);
    if results[0] == OtherError {
      assert Survivors(pids, results) == [pids[0]] + tail;
      idx := PrependIndex(pids, results, tail, shifted);
    } else {
      assert Survivors(pids, results) == tail;
      idx := shifted;
    }
  }

  /** Positions in the table without its head, as positions in the whole table. */
  lemma ShiftIndices(pids: seq<int>, results: seq<KillResult>, tail: seq<int>, rest: seq<nat>)
    returns (shifted: seq<nat>)
    requires |pids| == |results| && 0 < |pids|
    requires |rest| == |tail|
    requires forall k :: 0 <= k < |rest| ==>
               rest[k] < |pids| - 1 && results[1..][rest[k]] == OtherError && tail[k] == pids[1..][rest[k]]
    requires forall k, l :: 0 <= k < l < |rest| ==> rest[k] < rest[l]
    requires forall j :: 0 <= j < |pids| - 1 && results[1..][j] == OtherError ==> j in rest
    ensures |shifted| == |tail|
    ensures forall k :: 0 <= k < |shifted| ==>
              0 < shifted[k] < |pids| && results[shifted[k]] == OtherError && tail[k] == pids[shifted[k]]
    ensures forall k, l :: 0 <= k < l < |shifted| ==> shifted[k] < shifted[l]
    ensures forall j :: 1 <= j < |pids| && results[j] == OtherError ==> j in shifted
  {
    shifted := seq(|rest|, k requires 0 <= k < |rest| => rest[k] + 1);
    forall j | 1 <= j < |pids| && results[j] == OtherError
      ensures j in shifted
    {
      assert results[1..][j - 1] == OtherError;
      var k :| 0 <= k < |rest| && rest[k] == j - 1;
      assert shifted[k] == j;
    }
  }

  /** Adding position 0, which survives, in front of the positions that survive after it. */
  lemma PrependIndex(pids: seq<int>, results: seq<KillResult>, tail: seq<int>, shifted: seq<nat>)
    returns (idx: seq<nat>)
    requires |pids| == |results| && 0 < |pids| && results[0] == OtherError
    requires Survivors(pids, results) == [pids[0]] + tail
    requires |shifted| == |tail|
    requires forall k :: 0 <= k < |shifted| ==>
               0 < shifted[k] < |pids| && results[shifted[k]] == OtherError && tail[k] == pids[shifted[k]]
    requires forall k, l :: 0 <= k < l < |shifted| ==> shifted[k] < shifted[l]
    requires forall j :: 1 <= j < |pids| && results[j] == OtherError ==> j in shifted
    ensures |idx| == |Survivors(pids, results)|
    ensures forall k :: 0 <= k < |idx| ==>
              idx[k] < |pids| && results[idx[k]] == OtherError && Survivors(pids, results)[k] == pids[idx[k]]
    ensures forall k, l :: 0 <= k < l < |idx| ==> idx[k] < idx[l]
    ensures forall j :: 0 <= j < |pids| && results[j] == OtherError ==> j in idx
  {
    idx := [0] + shifted;
    var r := [pids[0]] + tail;
    forall k | 0 <= k < |idx|
      ensures idx[k] < |pids| && results[idx[k]] == OtherError && r[k] == pids[idx[k]]
    {
      if k > 0 {
        assert idx[k] == shifted[k - 1] && r[k] == tail[k - 1];
      }
    }
    forall k, l | 0 <= k < l < |idx|
      ensures idx[k] < idx[l]
    {
      assert idx[l] == shifted[l - 1];
      if k > 0 {
        assert idx[k] == shifted[k - 1];
      }
    }
  }

  /**
   One step of the tail-to-head walk: when the entries from index i on have
   been processed, processing entry i - 1 (removing it unless its kill failed
   with a non-ESRCH error) leaves the entries from i - 1 on processed.
   */
  lemma WalkStep(pids: seq<int>, results: seq<KillResult>, current: seq<int>, i: nat)
    requires |pids| == |results| && 0 < i <= |pids|
    requires current == pids[..i] + Survivors(pids[i..], results[i..])
    ensures i - 1 < |current| && current[i - 1] == pids[i - 1]
    ensures results[i - 1] != OtherError ==>
              current[..i - 1] + current[i..] == pids[..i - 1] + Survivors(pids[i - 1..], results[i - 1..])
    ensures results[i - 1] == OtherError ==>
              current == pids[..i - 1] + Survivors(pids[i - 1..], results[i - 1..])
  {
    assert pids[i - 1..][1..] == pids[i..];
    assert results[i - 1..][1..] == results[i..];
    var rest := Survivors(pids[i..], results[i..]);
    assert pids[..i] == pids[..i - 1] + [pids[i - 1]];
    if results[i - 1] != OtherError {
      assert current[..i - 1] == pids[..i - 1];
      assert current[i..] == rest;
    }
  }

  /**
   `kill_all_children` as a reference definition: nothing happens on an empty
   table; otherwise exactly the entries whose kill failed with a non-ESRCH
   error stay, in their original order.
   */
  function KillAll(t: Table, results: seq<KillResult>): (r: Table)
    requires |results| == |t.pids|
    ensures |t.pids| == 0 ==> r == t
    ensures r.capacity == t.capacity && r.hasArray == t.hasArray
    ensures |r.pids| == CountOf(results, OtherError)
    ensures |t.pids| - |r.pids| == CountOf(results, Delivered) + CountOf(results, NoSuchProcess)
    ensures t.Valid() ==> r.Valid()
  {
    CountPartition(results);
    if |t.pids| == 0 then t else t.(pids := Survivors(t.pids, results))
  }

  /**
   `kill_all_children` as the supervisor runs it: walk from the tail to the
   head, SIGKILL each entry, and remove it in place (shifting later slots
   down) when the kill was delivered or hit ESRCH.
   */
  method KillAllChildren(t: Table, results: seq<KillResult>) returns (r: Table)
    requires |results| == |t.pids|
    ensures r == KillAll(t, results)
  {
    if |t.pids| == 0 {
      return t;
    }
    r := t;
    var i := |t.pids|;
    assert t.pids[i..] == [] && results[i..] == [];
    while i > 0
      invariant 0 <= i <= |t.pids|
      invariant r.capacity == t.capacity && r.hasArray == t.hasArray
      invariant r.pids == t.pids[..i] + Survivors(t.pids[i..], results[i..])
    {
      var current := i - 1;
      WalkStep(t.pids, results, r.pids, i);
      if results[current] != OtherError {
        r := RemoveChildPidAtIndex(r, current);
      }
      i := current;
    }
    assert t.pids[0..] == t.pids && results[0..] == results;
  }

  /**
   `signal_all_children`: send SIGUSR1 or SIGUSR2 to every tracked pid, head
   to tail, counting deliveries and ESRCH failures. It returns only counters,
   so the table cannot change; ESRCH entries stay tracked.
   */
  method SignalAllChildren(t: Table, results: seq<KillResult>) returns (signaled: nat, esrch: nat)
    requires |results| == |t.pids|
    ensures signaled == CountOf(results, Delivered)
    ensures esrch == CountOf(results, NoSuchProcess)
    ensures signaled + esrch + CountOf(results, OtherError) == |t.pids|
  {
    CountPartition(results);
    signaled, esrch := 0, 0;
    if |t.pids| == 0 {
      return;
    }
    var i := 0;
    while i < |t.pids|
      invariant 0 <= i <= |t.pids|
      invariant signaled == CountOf(results[..i], Delivered)
      invariant esrch == CountOf(results[..i], NoSuchProcess)
    {
      CountOfSnoc(results, i, Delivered);
      CountOfSnoc(results, i, NoSuchProcess);
      if results[i] == Delivered {
        signaled := signaled + 1;
      } else if results[i] == NoSuchProcess {
        esrch := esrch + 1;
      }
      i := i + 1;
    }
    assert results[..i] == results;
  }

  /**
   The table part of `cleanup_resources`: kill every child, then, if the
   array is allocated (non-NULL), free it and zero count and capacity.
   */
  function CleanupResources(t: Table, results: seq<KillResult>): (r: Table)
    requires |results| == |t.pids|
    ensures t.Valid() ==> |r.pids| == 0 && r.capacity == 0 && !r.hasArray && r.Valid()
  {
    var killed := KillAll(t, results);
    if killed.hasArray then Table([], 0, false) else killed
  }

  /** A second cleanup, which finds an empty table and issues no kill, changes nothing. */
  lemma CleanupIdempotent(t: Table, results: seq<KillResult>)
    requires t.Valid() && |results| == |t.pids|
    ensures CleanupResources(CleanupResources(t, results), []) == CleanupResources(t, results)
  {
  }

  /** Spawning three children in turn lists them in spawn order. */
  lemma ThreeSpawnsInOrder(a: int, b: int, c: int)
    ensures var t1 := AddChildPid(AllocateTable(), a, true).table;
            var t2 := AddChildPid(t1, b, true).table;
            var t3 := AddChildPid(t2, c, true);
            t3.Added? && t3.table.pids == [a, b, c]
  {
  }

  /** Killing the last child right after adding it restores the earlier entries. */
  lemma AddThenKillLast(t: Table, pid: int, reallocOk: bool, result: KillResult)
    requires AddChildPid(t, pid, reallocOk).Added?
    requires result != OtherError
    ensures var r := KillLastChild(AddChildPid(t, pid, reallocOk).table, result);
            r.table.pids == t.pids && r.outcome.pid == pid
  {
  }

  /** On a one-entry table, killing all children is the same as killing the last one. */
  lemma KillAllOfOneIsKillLast(t: Table, result: KillResult)
    requires |t.pids| == 1
    ensures KillAll(t, [result]) == KillLastChild(t, result).table
  {
  }
}
