# Pulsar kernel probes: path resolution, filesystem events, syscall activity

This project is a Dafny model of two eBPF probe programs from Pulsar, a
runtime security monitor for Linux, together with proofs about them.

**The filesystem monitor** (`file-system-monitor/probes.bpf.c`) has eight LSM
hooks (mknod, unlink, file open, link, symlink, mkdir, rmdir and rename) and
seven event kinds; link and symlink share FILE_LINK. Each
hook does four things in order:

- takes a `fs_event` from `fs_event_init`, which may fail;
- writes the absolute path (or paths) of the affected entry into the event's
  byte buffer with `get_path_str`;
- fills in the kind-specific fields, which are slices into that buffer;
- submits the event with `output_event`.

`get_path_str` is modelled in place:

- `struct get_path_ctx` becomes the class `PathResolver.PathCtx`, with its two
  20-slot arrays.
- Its two bounded `LOOP`s become methods with loop invariants.
- The kernel's dentry and mount graph becomes the read-only value
  `Kernel.Namespace`.

Each step is proved against value-level functions:

- `Collect` is the walk from the entry to the root. It records one name per
  step, crosses from the root of a non-top mount to its mountpoint, and stops
  at a detached entry or at the root of the top mount.
- `Emit` writes slots 19 down to 0, with "/" before each non-empty slot.
- `Resolve` is the two composed.

`PathProperties` proves what `Resolve` means:

- A chain of at most 20 ordinary entries gives the canonical "/a/b/c" path.
- A deeper chain keeps only its 20 leaf-most components.
- A path that crosses one mount joins the mountpoint's path to the path
  inside the mount.
- A walk that records nothing gives the empty string.

Each hook is a method whose postcondition gives the exact list of sent events:

- no event when `fs_event_init` fails;
- otherwise exactly one record, built by a value function per kind. That
  function states the kind, the payload slices and what each slice reads back.

**The syscall monitor** (`syscall-monitor/probes.bpf.c`) keeps a bounded hash
map from thread-group id to a histogram of 512 64-bit counters. It is modelled
as the class `SyscallMonitor.ActivityTable`, which holds a `map` field and the
two tracepoint handlers `SysEnter` and `SchedProcessExit`. Each handler is
proved against a value function (`SysEnterSpec`, `ExitSpec`). Lemmas about
those functions cover:

- which record changes;
- the fresh zero record for a new group;
- what N calls do;
- the 4096-entry bound;
- what process exit does.

Inputs that the probes read from the kernel are parameters:

- the result of `interesting_tgid()` and `is_thread()`;
- whether the per-CPU scratch record and the event storage are available;
- the namespace graph;
- the syscall number.

## Model

| member | source | states |
|---|---|---|
| Buffers.Slice | crates/modules/file-system-monitor/probes.bpf.c:17-41 | a `buffer_index` slice of the blob has exactly the slice's length |
| Buffers.Buffer.IndexInit | crates/modules/file-system-monitor/probes.bpf.c:121 | `buffer_index_init` opens an empty slice starting at the current end of the buffer |
| Buffers.Buffer.AppendStr | crates/modules/file-system-monitor/probes.bpf.c:104-105 | `buffer_append_str` appends exactly the given bytes; the slice keeps its start and grows by their number; the buffer stays within capacity |
| Buffers.Buffer.constructor | crates/modules/file-system-monitor/probes.bpf.c:17-41 | a new event buffer is empty and has the given capacity |
| PathResolver.NoComponents | crates/modules/file-system-monitor/probes.bpf.c:115-116 | after the two `memset`s, all 20 component slots are empty |
| PathResolver.Collect | crates/modules/file-system-monitor/probes.bpf.c:59-90 | the collect pass always leaves exactly 20 slots |
| PathResolver.PathCtx.constructor | crates/modules/file-system-monitor/probes.bpf.c:43-57 | the `get_path_ctx` set-up: the walk starts at the given dentry and mount, `mnt_parent_p` is the mount's parent, and every slot is empty |
| PathResolver.PathCtx.GetDentryName | crates/modules/file-system-monitor/probes.bpf.c:59-90 | returns non-zero exactly at a detached entry or at the root of the top mount; at the root of any other mount, moves to its mountpoint in the parent mount and writes nothing; otherwise writes the entry's name into slot i (only when i < 20) and moves to the parent; `component_len` always matches the recorded name |
| PathResolver.PathCtx.AppendPathComponent | crates/modules/file-system-monitor/probes.bpf.c:95-107 | iteration i appends "/" plus the contents of slot 19 - i when that slot is non-empty and nothing when it is empty, and grows the slice by the same count; it returns 1 and writes nothing once i >= 20 |
| PathResolver.CollectKeepsEarlier | crates/modules/file-system-monitor/probes.bpf.c:84-87 | step i writes slot i only, so the slots of earlier steps are never overwritten |
| PathResolver.CollectLoop | crates/modules/file-system-monitor/probes.bpf.c:122 | the first `LOOP` (at most 20 calls, stopping at the first non-zero return) leaves the slots equal to `Collect` starting from the initial dentry and mount |
| PathResolver.EmitLoop | crates/modules/file-system-monitor/probes.bpf.c:123 | the second `LOOP` appends exactly `Emit` of the slots to the buffer, and the slice grows by that length |
| PathResolver.GetPathStr | crates/modules/file-system-monitor/probes.bpf.c:110-125 | `get_path_str` appends exactly `Resolve(dentry, mnt)` to the buffer, and the returned slice starts at the old end of the buffer and covers exactly those bytes |
| PathProperties.EmitFromIsJoin | crates/modules/file-system-monitor/probes.bpf.c:92-107 | emitting from slot lo upward equals "/"-joining the non-empty slots in reverse order, so empty slots are skipped |
| PathProperties.EmitIsJoin | crates/modules/file-system-monitor/probes.bpf.c:92-107 | the whole emit pass is the "/"-join, root first, of the non-empty slots in reverse |
| PathProperties.EmitFromEmptyIff | crates/modules/file-system-monitor/probes.bpf.c:102-103 | the emit pass writes nothing if and only if every slot it visits is empty |
| PathProperties.ResolveEmptyIff | crates/modules/file-system-monitor/probes.bpf.c:110-125 | the path is the empty string (not "/") if and only if the collect pass recorded no component |
| PathProperties.CollectSlot | crates/modules/file-system-monitor/probes.bpf.c:59-90 | after the pass, slot k holds the name recorded at step k, and keeps its initial value when step k is never reached or does not record |
| PathProperties.UnwrittenSlotsEmpty | crates/modules/file-system-monitor/probes.bpf.c:84-87 | a slot that no step records into stays empty |
| PathProperties.DetachedStops | crates/modules/file-system-monitor/probes.bpf.c:66-70 | an entry that is its own parent but not the mount root ends the walk, with the slots unchanged |
| PathProperties.TopRootStops | crates/modules/file-system-monitor/probes.bpf.c:79-80 | the root of the top mount ends the walk, with the slots unchanged |
| PathProperties.MountRootCrosses | crates/modules/file-system-monitor/probes.bpf.c:71-78 | the root of a non-top mount uses up one step, records nothing, and continues at the mountpoint in the parent mount |
| PathProperties.CollectAlongChain | crates/modules/file-system-monitor/probes.bpf.c:83-88 | along a chain of ordinary entries, consecutive steps write the names into consecutive slots |
| PathProperties.CollectToTopRoot | crates/modules/file-system-monitor/probes.bpf.c:59-90 | a chain that ends at the root of the top mount puts its names into slots j .. j+n-1 and leaves every other slot unchanged |
| PathProperties.EmitNamesThenEmpty | crates/modules/file-system-monitor/probes.bpf.c:92-107 | recorded names followed by empty slots emit as the names joined root first |
| PathProperties.ResolveWithinMount | crates/modules/file-system-monitor/probes.bpf.c:110-125 | an entry at most 20 named ordinary entries below the root of the top mount resolves to the canonical path: its ancestors' names joined with "/" from the root down |
| PathProperties.ResolveTruncated | crates/modules/file-system-monitor/probes.bpf.c:84-87 | an entry with 20 or more ordinary ancestors-or-self resolves to the path of the 20 leaf-most ones, whatever lies above them |
| PathProperties.EmitAcrossMount | crates/modules/file-system-monitor/probes.bpf.c:92-107 | the inner names, the empty crossing slot, the outer names and then empty slots emit as the outer path followed by the inner path |
| PathProperties.CollectInnerMount | crates/modules/file-system-monitor/probes.bpf.c:71-78 | walking up a mount to its root records the inner names and then crosses to the mountpoint in the step after them |
| PathProperties.CollectOuterMount | crates/modules/file-system-monitor/probes.bpf.c:59-90 | from the mountpoint, walking up the top mount puts the outer names after the crossing slot |
| PathProperties.CollectAcrossMount | crates/modules/file-system-monitor/probes.bpf.c:59-90 | the slots after one mount crossing: the inner names, one empty slot, the outer names, then empty slots |
| PathProperties.ResolveAcrossMount | crates/modules/file-system-monitor/probes.bpf.c:110-125 | an entry of a mount that is mounted on an entry of the top mount resolves to the mountpoint's path followed by the entry's path inside its mount |
| PathProperties.ExampleNestedFile | crates/modules/file-system-monitor/probes.bpf.c:110-125 | a file three directories below the root resolves to "/a/b/c/file" |
| PathProperties.ExampleMountedEntry | crates/modules/file-system-monitor/probes.bpf.c:71-78 | an entry at the root of a mount on "/mnt" resolves to "/mnt/data" |
| FileSystemMonitor.FlagsToInt | crates/modules/file-system-monitor/probes.bpf.c:156 | the unsigned `f_flags` stored into the `int` field `flags` keeps its bit pattern: it is unchanged below 2^31 and reduced by 2^32 from 2^31 on |
| FileSystemMonitor.SinglePathRecord | crates/modules/file-system-monitor/probes.bpf.c:33-41 | a one-path record carries the kind that matches its payload, and its only slice reads back the path |
| FileSystemMonitor.TwoPathRecord | crates/modules/file-system-monitor/probes.bpf.c:22-31 | a two-path record has the blob `first + second`; `source` reads back `first` and `destination` reads back `second` |
| FileSystemMonitor.FileCreatedEvent | crates/modules/file-system-monitor/probes.bpf.c:127-137 | the FILE_CREATED record: `created` is the slice [0, len) and reads back the path, and the sent length equals the blob length |
| FileSystemMonitor.FileDeletedEvent | crates/modules/file-system-monitor/probes.bpf.c:139-147 | the FILE_DELETED record: `deleted` reads back the path |
| FileSystemMonitor.DirCreatedEvent | crates/modules/file-system-monitor/probes.bpf.c:190-199 | the DIR_CREATED record: `dir_created` reads back the path |
| FileSystemMonitor.DirDeletedEvent | crates/modules/file-system-monitor/probes.bpf.c:201-209 | the DIR_DELETED record: `dir_deleted` reads back the path |
| FileSystemMonitor.FileOpenedEvent | crates/modules/file-system-monitor/probes.bpf.c:149-158 | the FILE_OPENED record: `opened.filename` reads back the path and `opened.flags` carries the flags |
| FileSystemMonitor.FileLinkEvent | crates/modules/file-system-monitor/probes.bpf.c:160-188 | the FILE_LINK record: `source` starts at 0 and `destination` starts where `source` ends, each reads back its own bytes, and `hard_link` is as given |
| FileSystemMonitor.FileRenameEvent | crates/modules/file-system-monitor/probes.bpf.c:211-224 | the FILE_RENAME record: `source` reads back the old path and `destination` the new path, written one after the other |
| FileSystemMonitor.FsEvent.constructor | crates/modules/file-system-monitor/probes.bpf.c:33-41 | a new event has the given kind and an empty, fresh buffer |
| FileSystemMonitor.Output.constructor | crates/modules/file-system-monitor/probes.bpf.c:33 | the `events` output map starts with nothing sent |
| FileSystemMonitor.Output.FsEventInit | crates/modules/file-system-monitor/probes.bpf.c:132-134 | `fs_event_init` returns an event exactly when storage is available, of the requested kind and with an empty buffer of capacity BUFFER_MAX |
| FileSystemMonitor.Output.OutputEvent | crates/modules/file-system-monitor/probes.bpf.c:136 | `output_event` appends one record: the kind, the payload, the first `len` buffer bytes, the header size and `len` |
| FileSystemMonitor.OnPathMknod | crates/modules/file-system-monitor/probes.bpf.c:127-137 | sends nothing when `fs_event_init` fails; otherwise sends exactly one FILE_CREATED event for the resolved path of `dentry` under `dir`'s mount, with header size sizeof(fs_event) and length buffer.len |
| FileSystemMonitor.OnPathUnlink | crates/modules/file-system-monitor/probes.bpf.c:139-147 | sends nothing on init failure; otherwise exactly one FILE_DELETED event for the path of `dentry` |
| FileSystemMonitor.OnFileOpen | crates/modules/file-system-monitor/probes.bpf.c:149-158 | sends nothing on init failure; otherwise exactly one FILE_OPENED event for the path of `f_path`, with `f_flags` stored as a signed int |
| FileSystemMonitor.OnPathLink | crates/modules/file-system-monitor/probes.bpf.c:160-172 | sends nothing on init failure; otherwise exactly one FILE_LINK event whose `source` is the NEW entry's path and whose `destination` is the existing entry's path, both resolved through `new_dir`'s mount, with `hard_link` true |
| FileSystemMonitor.OnPathSymlink | crates/modules/file-system-monitor/probes.bpf.c:174-188 | sends nothing on init failure; otherwise exactly one FILE_LINK event whose `source` is the new entry's path and whose `destination` is the `old_name` bytes verbatim, placed after it in the same buffer, with `hard_link` false |
| FileSystemMonitor.OnPathMkdir | crates/modules/file-system-monitor/probes.bpf.c:190-199 | sends nothing on init failure; otherwise exactly one DIR_CREATED event for the path of `dentry` |
| FileSystemMonitor.OnPathRmdir | crates/modules/file-system-monitor/probes.bpf.c:201-209 | sends nothing on init failure; otherwise exactly one DIR_DELETED event for the path of `dentry` |
| FileSystemMonitor.OnPathRename | crates/modules/file-system-monitor/probes.bpf.c:211-224 | sends nothing on init failure; otherwise exactly one FILE_RENAME event whose `source` is the old path (through `old_dir`'s mount) and whose `destination` is the new path (through `new_dir`'s mount) |
| FsExamples.TwoLevelPath | crates/modules/file-system-monitor/probes.bpf.c:110-125 | an entry two levels below the root resolves to "/d/name" |
| FsExamples.ExampleRename | crates/modules/file-system-monitor/probes.bpf.c:211-224 | renaming /a/old to /a/new sends source "/a/old" and destination "/a/new" |
| FsExamples.ExampleHardLink | crates/modules/file-system-monitor/probes.bpf.c:160-172 | hard-linking /a/old as /a/new sends source "/a/new" (the new name) and destination "/a/old" |
| SyscallMonitor.ZeroActivity | crates/modules/syscall-monitor/probes.bpf.c:20-26 | the scratch record is all zero in all 512 counters |
| SyscallMonitor.SyscallIndex | crates/modules/syscall-monitor/probes.bpf.c:65-67 | `id & (MAX_SYSCALLS - 1)` lies in [0, 511] and equals the low nine bits of the 64-bit pattern of `id`, negative ids included |
| SyscallMonitor.Incremented | crates/modules/syscall-monitor/probes.bpf.c:68 | `++` on a `uint64_t` counter is +1 modulo 2^64 |
| SyscallMonitor.Bump | crates/modules/syscall-monitor/probes.bpf.c:67-68 | exactly counter i is incremented and the other 511 are unchanged |
| SyscallMonitor.SysEnterSpec | crates/modules/syscall-monitor/probes.bpf.c:13-18 | a table within 4096 entries stays within 4096 entries after any call |
| SyscallMonitor.SysEnterEffect | crates/modules/syscall-monitor/probes.bpf.c:34-72 | tgid < 0 leaves the table unchanged; so does a new group when the scratch record is missing or the table is full; a present group keeps the key set; a seeded group adds exactly its key; every other group's record is untouched |
| SyscallMonitor.SysEnterPresent | crates/modules/syscall-monitor/probes.bpf.c:40-69 | a group with a record gets exactly its counter `id & 511` incremented |
| SyscallMonitor.SysEnterAbsent | crates/modules/syscall-monitor/probes.bpf.c:40-55 | a new group, when the scratch record is available and the table has room, gets the zero record with exactly slot `id & 511` at 1 |
| SyscallMonitor.ExitSpec | crates/modules/syscall-monitor/probes.bpf.c:77-84 | a thread exit leaves the table unchanged; a process exit removes exactly that group's key; no record is ever changed or added |
| SyscallMonitor.RepeatedFromPresent | crates/modules/syscall-monitor/probes.bpf.c:40-69 | n calls on a present record add n (mod 2^64) to counter `id & 511` and change no other counter |
| SyscallMonitor.RepeatedFromAbsent | crates/modules/syscall-monitor/probes.bpf.c:40-69 | n calls (0 < n < 2^64) for a new group with room leave the zero record with exactly that counter at n |
| SyscallMonitor.RepeatedShift | crates/modules/syscall-monitor/probes.bpf.c:34-72 | n + 1 calls are one call followed by n calls |
| SyscallMonitor.ExitThenEnterReseeds | crates/modules/syscall-monitor/probes.bpf.c:40-84 | after a process exit, the reused tgid's next call starts from a fresh zero record, with one counter at 1 |
| SyscallMonitor.EnterWithRoom | crates/modules/syscall-monitor/probes.bpf.c:40-69 | with the scratch record at hand and room in the table, a call sets the group's record to its base record (the present one or the zero one) with one counter bumped |
| SyscallMonitor.DistinctGroupsCommute | crates/modules/syscall-monitor/probes.bpf.c:34-72 | calls by two different groups commute while the table has room for both records |
| SyscallMonitor.ActivityTable.constructor | crates/modules/syscall-monitor/probes.bpf.c:13-18 | the `activities` map starts empty |
| SyscallMonitor.ActivityTable.UpdateElem | crates/modules/syscall-monitor/probes.bpf.c:51 | `bpf_map_update_elem` with BPF_ANY succeeds exactly when the key is present or the table has fewer than 4096 entries; on success it sets the key to the value, and on failure it changes nothing |
| SyscallMonitor.ActivityTable.DeleteElem | crates/modules/syscall-monitor/probes.bpf.c:81 | `bpf_map_delete_elem` removes exactly that key, and a missing key changes nothing |
| SyscallMonitor.ActivityTable.SysEnter | crates/modules/syscall-monitor/probes.bpf.c:34-72 | `sys_enter`, step by step (lookup, seed from the scratch record, re-lookup, increment, write-back), leaves the table equal to `SysEnterSpec` and within 4096 entries |
| SyscallMonitor.ActivityTable.SchedProcessExit | crates/modules/syscall-monitor/probes.bpf.c:77-84 | `sched_process_exit` leaves the table equal to `ExitSpec`: a non-thread exit deletes the group's entry and a thread exit changes nothing |

### Where the code and its description differ (the model follows the code)

- **Mount roots.** At the root of a mount, the code checks only whether the
  mount is its own parent mount. It does not also require the dentry to be
  its own parent before treating the position as the global root. At the
  root of the top mount the walk stops either way.
- **Symlink target.** `old_name` does not go into a buffer of its own. It is
  appended to the same event buffer, right after the source path, through a
  slice opened at the buffer's end. The two slices are therefore adjacent, as
  they are for link and rename.
- **Which exits remove a record.** `sched_process_exit` removes the record
  whenever `is_thread` reports that the exiting thread is a whole process. The record is
  keyed by the id `is_thread` writes back. The code keeps no separate owning
  group id and makes no group-leader test.
- **Hard links.** `on_path_link` puts the NEW name in `source` and the
  existing entry in `destination`, and resolves both through `new_dir`'s
  mount. The model keeps this order.

## Left out

- FileSystemMonitor.OnPathMknod: requires the resolved path to fit in BUFFER_MAX. What `buffer_append_str` does when the buffer fills is not modelled, because `buffer.bpf.h` is not part of this model.
- FileSystemMonitor.OnPathUnlink: requires the resolved path to fit in BUFFER_MAX, for the same reason.
- FileSystemMonitor.OnFileOpen: requires the resolved path to fit in BUFFER_MAX, for the same reason.
- FileSystemMonitor.OnPathLink: requires both resolved paths together to fit in BUFFER_MAX, for the same reason.
- FileSystemMonitor.OnPathSymlink: requires the resolved path plus `old_name` to fit in BUFFER_MAX. `old_name` is given as the bytes of the target string before its NUL, so it is required to hold no 0 byte; the bounded string read itself is not modelled.
- FileSystemMonitor.OnPathMkdir: requires the resolved path to fit in BUFFER_MAX, for the same reason.
- FileSystemMonitor.OnPathRmdir: requires the resolved path to fit in BUFFER_MAX, for the same reason.
- FileSystemMonitor.OnPathRename: requires both resolved paths together to fit in BUFFER_MAX, for the same reason.
- PathResolver.GetPathStr: requires the resolved path to fit in the buffer, for the same reason.
- `buffer.bpf.h`, `loop.bpf.h` and `output.bpf.h` are not part of this model. The model assumes the following about them:
  - `LOOP(n, f, ctx)` calls `f` for i = 0 .. n-1 and stops at the first non-zero return;
  - `fs_event_init` either fails or gives an event with an empty buffer of capacity BUFFER_MAX;
  - `output_event` submits the record.
- `fs_event_init` is modelled as a fresh event per call. The per-CPU reuse of event storage is not modelled.
- Ring-buffer submission failures inside `output_event` are not modelled. Every submitted record is taken as sent.
- Kernel plumbing is abstracted:
  - `BPF_CORE_READ` and `container_of` become fields of `Kernel.Namespace`;
  - `vfsmnt` is always `&mnt_p->mnt`, so it is folded into the mount id;
  - the hook attach macros and the license section are left out;
  - the `!c` guard in `get_dentry_name` is left out, because the context argument is never null in the model.
- `interesting_tgid()` and `is_thread()` are not part of this model. Their results are parameters.
- A short-lived process whose record is never polled is not modelled, because the user-space poller is outside the probes.
- Concurrency is not modelled. Two CPUs can update the same record at once, and an increment can be lost, as the comment at `syscall-monitor/probes.bpf.c:57-63` warns. Each handler runs as one sequential step.
- SyscallMonitor.ActivityTable.SysEnter: the source increments the counter in place through the address the lookup returns and then writes the record back. The model instead copies the record, increments the copy and updates the map. The sequential outcome is the same, but the aliasing is not captured.
- SyscallMonitor.ActivityTable.UpdateElem: the only failure modelled is the insertion of a new key into a full table. Other kernel allocation failures are not modelled. The return value that `sys_enter` ignores at line 51 is ignored in the model too, and the re-lookup at lines 52-54 detects the failure.
- SyscallMonitor.RepeatedFromAbsent: stated for n < 2^64 only. RepeatedFromPresent covers wrap-around in general, as + n modulo 2^64.
- SyscallMonitor.SyscallIndex: the bitwise `&` is stated arithmetically, as the remainder of the unsigned 64-bit pattern modulo 512. That is the same value, because 512 is a power of two.
- `LOG_ERROR` is left out, because it only writes to the kernel trace log.
- `crates/modules/rules-engine` is not part of this model. It is a user-space consumer of the events.
