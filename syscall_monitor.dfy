/**
 * The syscall monitor's per-process activity table: for every interesting
 * thread group, a histogram of 512 sixty-four-bit counters indexed by the low
 * nine bits of the syscall number.
 *
 * `sys_enter` finds the caller's record (seeding it from an all-zero scratch
 * record when there is none) and increments one counter; `sched_process_exit`
 * drops the record when the exiting task is a whole process rather than one of
 * its threads.  The table is a bounded hash map: inserting a new key into a
 * full table fails.
 */
module SyscallMonitor {

  const MAX_SYSCALLS: nat := 512
  const MAX_ENTRIES: nat := 4096
  const U64_MODULUS: nat := 0x1_0000_0000_0000_0000

  type u64 = x: int | 0 <= x < 0x1_0000_0000_0000_0000
  type int64 = x: int | -0x8000_0000_0000_0000 <= x < 0x8000_0000_0000_0000
  /** `pid_t`, a signed 32-bit thread-group id; negative means "not interesting". */
  type Pid = x: int | -0x8000_0000 <= x < 0x8000_0000

  /** An `activity_t`: exactly one counter per syscall slot. */
  type Histogram = h: seq<u64> | |h| == MAX_SYSCALLS witness seq(MAX_SYSCALLS, _ => 0)

  /** The all-zero record the per-CPU scratch map holds. */
  function ZeroActivity(): (r: Histogram)
    ensures forall k :: 0 <= k < |r| ==> r[k] == 0
  {
    seq(MAX_SYSCALLS, _ => 0)
  }

  /** The two's-complement bit pattern of a signed 64-bit value, read as unsigned. */
  function UnsignedPattern(id: int64): u64
  {
    if id < 0 then id + U64_MODULUS else id
  }

  /**
   * The slot `id & (MAX_SYSCALLS - 1)` of the signed 64-bit syscall number
   * `id`: the low nine bits of its bit pattern, so a negative number lands in
   * range too.
   */
  function SyscallIndex(id: int64): (r: nat)
    ensures r < MAX_SYSCALLS
    ensures r == UnsignedPattern(id) % MAX_SYSCALLS
  {
    id % MAX_SYSCALLS
  }

  /** `histogram[i]++` on a `uint64_t`, which wraps to zero past the maximum. */
  function Incremented(c: u64): (r: u64)
    ensures r == (c + 1) % U64_MODULUS
  {
    if c == U64_MODULUS - 1 then 0 else c + 1
  }

  /** `h` with counter `i` incremented. */
  function Bump(h: Histogram, i: nat): (r: Histogram)
    requires i < MAX_SYSCALLS
    ensures r[i] == Incremented(h[i])
    ensures forall k :: 0 <= k < MAX_SYSCALLS && k != i ==> r[k] == h[k]
  {
    h[i := Incremented(h[i])]
  }

  /**
   * The table after one `sys_enter` by thread group `tgid` for syscall `id`;
   * `scratch` says whether the zero scratch record could be had.
   */
  function SysEnterSpec(table: map<Pid, Histogram>, tgid: Pid, id: int64, scratch: bool)
    : (r: map<Pid, Histogram>)
    ensures |table| <= MAX_ENTRIES ==> |r| <= MAX_ENTRIES
  {
    var i := SyscallIndex(id);
    if tgid < 0 then table
    else if tgid in table then table[tgid := Bump(table[tgid], i)]
    else if !scratch || |table| >= MAX_ENTRIES then table
    else table[tgid := Bump(ZeroActivity(), i)]
  }

  /**
   * What one `sys_enter` does: nothing for an uninteresting task, nothing for
   * a new thread group when the scratch record is missing or the table is
   * full; otherwise the group's record (the present one or a fresh zero one)
   * has exactly its counter for `id` incremented, and every other group's
   * record is untouched.
   */
  lemma {:induction false} SysEnterEffect(table: map<Pid, Histogram>, tgid: Pid, id: int64, scratch: bool)
    ensures var r := SysEnterSpec(table, tgid, id, scratch);
      && (tgid < 0 ==> r == table)
      && (tgid >= 0 && tgid !in table && (!scratch || |table| >= MAX_ENTRIES) ==> r == table)
      && (tgid >= 0 && tgid in table ==> r.Keys == table.Keys)
      && (tgid >= 0 && tgid !in table && scratch && |table| < MAX_ENTRIES ==> r.Keys == table.Keys + {tgid})
      && (forall t :: t in table && t != tgid ==> t in r && r[t] == table[t])
  {
  }

  /** A group with a record: exactly its counter for `id` is incremented. */
  lemma {:induction false} SysEnterPresent(table: map<Pid, Histogram>, tgid: Pid, id: int64, scratch: bool)
    requires tgid >= 0 && tgid in table
    ensures var r := SysEnterSpec(table, tgid, id, scratch);
      && tgid in r && r[tgid] == Bump(table[tgid], SyscallIndex(id))
  {
  }

  /**
   * A new group, with the scratch record at hand and room in the table: its
   * record is the zero record with exactly the counter for `id` at 1.
   */
  lemma {:induction false} SysEnterAbsent(table: map<Pid, Histogram>, tgid: Pid, id: int64)
    requires tgid >= 0 && tgid !in table && |table| < MAX_ENTRIES
    ensures var r := SysEnterSpec(table, tgid, id, true);
      && tgid in r && r[tgid] == ZeroActivity()[SyscallIndex(id) := 1]
  {
  }

  /** The table after `sched_process_exit` of a task of thread group `tgid`. */
  function ExitSpec(table: map<Pid, Histogram>, tgid: Pid, isThread: bool): (r: map<Pid, Histogram>)
    ensures isThread ==> r == table
    ensures !isThread ==> tgid !in r && r.Keys == table.Keys - {tgid}
    ensures forall t :: t in r ==> t in table && r[t] == table[t]
    ensures |r| <= |table|
  {
    if isThread then table else table - {tgid}
  }

  /** `n` calls of `sys_enter` in a row by the same thread group for the same syscall. */
  function Repeated(table: map<Pid, Histogram>, tgid: Pid, id: int64, n: nat): (r: map<Pid, Histogram>)
  {
    if n == 0 then table else SysEnterSpec(Repeated(table, tgid, id, n - 1), tgid, id, true)
  }

  /**
   * Counting from a present record: after `n` calls the counter for `id` has
   * grown by `n`, modulo 2^64, and no other counter of the record has changed.
   */
  lemma {:induction false} RepeatedFromPresent(table: map<Pid, Histogram>, tgid: Pid, id: int64, n: nat)
    requires tgid >= 0 && tgid in table
    ensures tgid in Repeated(table, tgid, id, n)
    ensures Repeated(table, tgid, id, n)[tgid]
      == table[tgid][SyscallIndex(id) := (table[tgid][SyscallIndex(id)] + n) % U64_MODULUS]
  {
    var i := SyscallIndex(id);
    var h := table[tgid];
    if n == 0 {
      assert h[i := h[i] % U64_MODULUS] == h;
    } else {
      var before := Repeated(table, tgid, id, n - 1);
      RepeatedFromPresent(table, tgid, id, n - 1);
      SysEnterPresent(before, tgid, id, true);
      ModAddOne(h[i] + (n - 1));
      UpdateTwice(h, i, (h[i] + (n - 1)) % U64_MODULUS, (h[i] + n) % U64_MODULUS);
    }
  }

  lemma {:induction false} ModSmall(x: nat)
    requires x < U64_MODULUS
    ensures x % U64_MODULUS == x
  {
  }

  lemma {:induction false} ModAddOne(x: nat)
    ensures (x % U64_MODULUS + 1) % U64_MODULUS == (x + 1) % U64_MODULUS
  {
  }

  /**
   * A thread group with no record and room in the table: after `n` calls
   * (fewer than 2^64) its record is the zero record with the counter for `id`
   * at exactly `n`.
   */
  lemma {:induction false} RepeatedFromAbsent(table: map<Pid, Histogram>, tgid: Pid, id: int64, n: nat)
    requires tgid >= 0 && tgid !in table && |table| < MAX_ENTRIES
    requires 0 < n < U64_MODULUS
    ensures tgid in Repeated(table, tgid, id, n)
    ensures Repeated(table, tgid, id, n)[tgid] == ZeroActivity()[SyscallIndex(id) := n]
  {
    var i := SyscallIndex(id);
    var first := Repeated(table, tgid, id, 1);
    var z := ZeroActivity()[i := 1];
    RepeatedOnce(table, tgid, id);
    SysEnterAbsent(table, tgid, id);
    RepeatedShift(table, tgid, id, n - 1);
    RepeatedFromPresent(first, tgid, id, n - 1);
    calc {
      Repeated(table, tgid, id, n)[tgid];
      Repeated(first, tgid, id, n - 1)[tgid];
      z[i := (z[i] + (n - 1)) % U64_MODULUS];
      { assert z[i] + (n - 1) == n; ModSmall(n); }
      z[i := n];
      { UpdateTwice(ZeroActivity(), i, 1, n); }
      ZeroActivity()[i := n];
    }
  }

  lemma {:induction false} RepeatedOnce(table: map<Pid, Histogram>, tgid: Pid, id: int64)
    ensures Repeated(table, tgid, id, 1) == SysEnterSpec(table, tgid, id, true)
  {
    assert Repeated(table, tgid, id, 0) == table;
  }

  lemma {:induction false} UpdateTwice<T>(s: seq<T>, i: nat, a: T, b: T)
    requires i < |s|
    ensures s[i := a][i := b] == s[i := b]
  {
  }

  /** Running `n + 1` calls is one call followed by `n` more. */
  lemma {:induction false} RepeatedShift(table: map<Pid, Histogram>, tgid: Pid, id: int64, n: nat)
    ensures Repeated(table, tgid, id, n + 1) == Repeated(Repeated(table, tgid, id, 1), tgid, id, n)
  {
    if n > 0 {
      RepeatedShift(table, tgid, id, n - 1);
    }
  }

  /**
   * A process that exits and whose thread-group id is reused starts from a
   * fresh record: its next call leaves exactly the one counter at 1.
   */
  lemma {:induction false} ExitThenEnterReseeds(table: map<Pid, Histogram>, tgid: Pid, id: int64)
    requires tgid >= 0 && tgid in table && |table| <= MAX_ENTRIES
    ensures var after := SysEnterSpec(ExitSpec(table, tgid, false), tgid, id, true);
      && tgid in after && after[tgid] == ZeroActivity()[SyscallIndex(id) := 1]
  {
    var gone := ExitSpec(table, tgid, false);
    assert |gone| < |table| by {
      assert gone == table - {tgid};
    }
    var after := SysEnterSpec(gone, tgid, id, true);
    assert after[tgid] == ZeroActivity()[SyscallIndex(id) := 1];
  }

  /** The record `sys_enter` starts from: the present one, or the zero record. */
  function Base(table: map<Pid, Histogram>, tgid: Pid): Histogram
  {
    if tgid in table then table[tgid] else ZeroActivity()
  }

  /** With the scratch record at hand and room in the table, a call bumps the base record. */
  lemma {:induction false} EnterWithRoom(table: map<Pid, Histogram>, tgid: Pid, id: int64)
    requires tgid >= 0 && |table| < MAX_ENTRIES
    ensures SysEnterSpec(table, tgid, id, true) == table[tgid := Bump(Base(table, tgid), SyscallIndex(id))]
  {
  }

  /**
   * Calls by two different thread groups commute while the table has room
   * for both of their records.
   */
  lemma {:induction false} DistinctGroupsCommute(table: map<Pid, Histogram>, a: Pid, ida: int64, b: Pid, idb: int64)
    requires a != b && |table| + 2 <= MAX_ENTRIES
    ensures SysEnterSpec(SysEnterSpec(table, a, ida, true), b, idb, true)
         == SysEnterSpec(SysEnterSpec(table, b, idb, true), a, ida, true)
  {
    var ta := SysEnterSpec(table, a, ida, true);
    var tb := SysEnterSpec(table, b, idb, true);
    if a >= 0 && b >= 0 {
      EnterWithRoom(table, a, ida);
      EnterWithRoom(table, b, idb);
      var x := Bump(Base(table, a), SyscallIndex(ida));
      var y := Bump(Base(table, b), SyscallIndex(idb));
      assert Base(ta, b) == Base(table, b);
      assert Base(tb, a) == Base(table, a);
      EnterWithRoom(ta, b, idb);
      EnterWithRoom(tb, a, ida);
      assert table[a := x][b := y] == table[b := y][a := x];
    }
  }

  /** The `activities` hash map of thread-group id to `activity_t`. */
  class ActivityTable {
    var activities: map<Pid, Histogram>

    ghost predicate Valid()
      reads this
    {
      |activities| <= MAX_ENTRIES
    }

    constructor ()
      ensures Valid() && activities == map[]
    {
      activities := map[];
    }

    /**
     * `bpf_map_update_elem(&activities, &key, value, BPF_ANY)`: replaces an
     * existing record, inserts a new one while the table has room, and fails
     * (leaving the table as it was) when a new key meets a full table.
     */
    method UpdateElem(key: Pid, value: Histogram) returns (ok: bool)
      requires Valid()
      modifies this
      ensures Valid()
      ensures ok <==> key in old(activities) || |old(activities)| < MAX_ENTRIES
      ensures activities == if ok then old(activities)[key := value] else old(activities)
    {
      if key !in activities && |activities| >= MAX_ENTRIES {
        return false;
      }
      activities := activities[key := value];
      ok := true;
    }

    /** `bpf_map_delete_elem(&activities, &key)`; deleting a missing key changes nothing. */
    method DeleteElem(key: Pid)
      requires Valid()
      modifies this
      ensures Valid()
      ensures activities == old(activities) - {key}
    {
      activities := activities - {key};
    }

    /**
     * `sys_enter`: `tgid` is what `interesting_tgid()` returned, `id` the
     * syscall number from the tracepoint, `scratch` whether the per-CPU zero
     * record could be looked up.
     */
    method SysEnter(tgid: Pid, id: int64, scratch: bool)
      requires Valid()
      modifies this
      ensures Valid()
      ensures activities == SysEnterSpec(old(activities), tgid, id, scratch)
    {
      if tgid < 0 {
        return;
      }
      if tgid !in activities {
        if !scratch {
          return;
        }
        var _ := UpdateElem(tgid, ZeroActivity());
        if tgid !in activities {
          return;
        }
      }
      var activity := activities[tgid];
      var syscallNumber := SyscallIndex(id);
      activity := activity[syscallNumber := Incremented(activity[syscallNumber])];
      var _ := UpdateElem(tgid, activity);
    }

    /** `sched_process_exit`: `isThread` is what `is_thread(&tgid)` returned. */
    method SchedProcessExit(tgid: Pid, isThread: bool)
      requires Valid()
      modifies this
      ensures Valid()
      ensures activities == ExitSpec(old(activities), tgid, isThread)
    {
      if !isThread {
        DeleteElem(tgid);
      }
    }
  }
}
