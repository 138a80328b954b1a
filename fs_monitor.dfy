/**
 * The filesystem monitor's event encoder: the event kinds, the payload of each
 * kind, and the eight LSM hooks (link and symlink share FILE_LINK) that fill
 * one `fs_event` each and hand it to the output channel.
 *
 * A hook obtains an event from `fs_event_init` (which can fail, in which case
 * nothing is sent), resolves the paths it needs into the event's buffer with
 * `get_path_str`, fills its kind-specific fields, and submits the event with
 * `output_event`, giving the fixed header size and the number of buffer bytes
 * actually used.  The records below are what a consumer receives: the kind,
 * the payload, and the trailing blob that the payload's slices point into.
 */
module FileSystemMonitor {
  import opened Buffers
  import opened Kernel
  import opened PathResolver

  const FILE_CREATED: int := 0
  const FILE_DELETED: int := 1
  const DIR_CREATED: int := 2
  const DIR_DELETED: int := 3
  const FILE_OPENED: int := 4
  const FILE_LINK: int := 5
  const FILE_RENAME: int := 6

  type u32 = x: int | 0 <= x < 0x1_0000_0000
  type int32 = x: int | -0x8000_0000 <= x < 0x8000_0000

  /** The union of kind-specific fields of `struct fs_event`, one variant per kind. */
  datatype Payload =
    | Created(created: BufferIndex)
    | Deleted(deleted: BufferIndex)
    | DirCreated(dirCreated: BufferIndex)
    | DirDeleted(dirDeleted: BufferIndex)
    | Opened(filename: BufferIndex, flags: int32)
    | Link(source: BufferIndex, destination: BufferIndex, hardLink: bool)
    | Rename(source: BufferIndex, destination: BufferIndex)

  /** The kind constant that goes with each payload variant. */
  function KindOf(p: Payload): int
  {
    match p
    case Created(_) => FILE_CREATED
    case Deleted(_) => FILE_DELETED
    case DirCreated(_) => DIR_CREATED
    case DirDeleted(_) => DIR_DELETED
    case Opened(_, _) => FILE_OPENED
    case Link(_, _, _) => FILE_LINK
    case Rename(_, _) => FILE_RENAME
  }

  /**
   * What `output_event` hands on: the kind, the payload, the used part of the
   * buffer, the header size and the used length it was given.
   */
  datatype SentEvent = SentEvent(kind: int, payload: Payload, blob: seq<byte>, headerSize: nat, bufferLen: nat)

  /** `struct file`, as far as `on_file_open` reads it. */
  datatype File = File(fPath: Path, fFlags: u32)

  /** The `unsigned int` `f_flags` stored into the `int` field `flags`. */
  function FlagsToInt(f: u32): (r: int32)
    ensures r == f || r == f - 0x1_0000_0000
    ensures 0 <= r <==> f < 0x8000_0000
  {
    if f < 0x8000_0000 then f else f - 0x1_0000_0000
  }

  // ---------------------------------------------------------------------------
  // The record each hook sends, on values

  /** The only slice of a single-path payload. */
  function SliceOf(p: Payload): BufferIndex
    requires p.Created? || p.Deleted? || p.DirCreated? || p.DirDeleted? || p.Opened?
  {
    match p
    case Created(i) => i
    case Deleted(i) => i
    case DirCreated(i) => i
    case DirDeleted(i) => i
    case Opened(i, _) => i
  }

  /** The record for an event with one path, stored in `payload`'s only slice. */
  function SinglePathRecord(payload: Payload, path: seq<byte>, headerSize: nat): (r: SentEvent)
    requires payload.Created? || payload.Deleted? || payload.DirCreated? || payload.DirDeleted? || payload.Opened?
    requires SliceOf(payload) == BufferIndex(0, |path|)
    ensures r.kind == KindOf(r.payload) && r.payload == payload
    ensures r.bufferLen == |r.blob| == |path| && r.headerSize == headerSize
    ensures Slice(r.blob, SliceOf(r.payload)) == path
  {
    assert path[0..|path|] == path;
    SentEvent(KindOf(payload), payload, path, headerSize, |path|)
  }

  /**
   * The record for an event with two paths written one after the other,
   * `first` in the `source` slice and `second` in the `destination` slice.
   */
  function TwoPathRecord(payload: Payload, first: seq<byte>, second: seq<byte>, headerSize: nat): (r: SentEvent)
    requires payload.Link? || payload.Rename?
    requires payload.source == BufferIndex(0, |first|)
    requires payload.destination == BufferIndex(|first|, |second|)
    ensures r.kind == KindOf(r.payload) && r.payload == payload
    ensures r.bufferLen == |r.blob| == |first| + |second| && r.headerSize == headerSize
    ensures Slice(r.blob, r.payload.source) == first
    ensures Slice(r.blob, r.payload.destination) == second
  {
    assert (first + second)[0..|first|] == first;
    assert (first + second)[|first|..|first| + |second|] == second;
    SentEvent(KindOf(payload), payload, first + second, headerSize, |first + second|)
  }

  /** What `on_path_mknod` sends: FILE_CREATED, `created` holding `path`. */
  function FileCreatedEvent(path: seq<byte>, headerSize: nat): (r: SentEvent)
    ensures r.kind == FILE_CREATED && r.payload.Created?
    ensures r.bufferLen == |r.blob| == |path| && r.headerSize == headerSize
    ensures r.payload.created == BufferIndex(0, |path|)
    ensures Slice(r.blob, r.payload.created) == path
  {
    SinglePathRecord(Created(BufferIndex(0, |path|)), path, headerSize)
  }

  /** What `on_path_unlink` sends: FILE_DELETED, `deleted` holding `path`. */
  function FileDeletedEvent(path: seq<byte>, headerSize: nat): (r: SentEvent)
    ensures r.kind == FILE_DELETED && r.payload.Deleted?
    ensures r.bufferLen == |r.blob| == |path| && r.headerSize == headerSize
    ensures r.payload.deleted == BufferIndex(0, |path|)
    ensures Slice(r.blob, r.payload.deleted) == path
  {
    SinglePathRecord(Deleted(BufferIndex(0, |path|)), path, headerSize)
  }

  /** What `on_path_mkdir` sends: DIR_CREATED, `dir_created` holding `path`. */
  function DirCreatedEvent(path: seq<byte>, headerSize: nat): (r: SentEvent)
    ensures r.kind == DIR_CREATED && r.payload.DirCreated?
    ensures r.bufferLen == |r.blob| == |path| && r.headerSize == headerSize
    ensures r.payload.dirCreated == BufferIndex(0, |path|)
    ensures Slice(r.blob, r.payload.dirCreated) == path
  {
    SinglePathRecord(DirCreated(BufferIndex(0, |path|)), path, headerSize)
  }

  /** What `on_path_rmdir` sends: DIR_DELETED, `dir_deleted` holding `path`. */
  function DirDeletedEvent(path: seq<byte>, headerSize: nat): (r: SentEvent)
    ensures r.kind == DIR_DELETED && r.payload.DirDeleted?
    ensures r.bufferLen == |r.blob| == |path| && r.headerSize == headerSize
    ensures r.payload.dirDeleted == BufferIndex(0, |path|)
    ensures Slice(r.blob, r.payload.dirDeleted) == path
  {
    SinglePathRecord(DirDeleted(BufferIndex(0, |path|)), path, headerSize)
  }

  /** What `on_file_open` sends: FILE_OPENED, `filename` holding `path`, and `flags`. */
  function FileOpenedEvent(path: seq<byte>, flags: int32, headerSize: nat): (r: SentEvent)
    ensures r.kind == FILE_OPENED && r.payload.Opened?
    ensures r.bufferLen == |r.blob| == |path| && r.headerSize == headerSize
    ensures r.payload.filename == BufferIndex(0, |path|)
    ensures Slice(r.blob, r.payload.filename) == path && r.payload.flags == flags
  {
    SinglePathRecord(Opened(BufferIndex(0, |path|), flags), path, headerSize)
  }

  /**
   * What `on_path_link` and `on_path_symlink` send: FILE_LINK, `source` and
   * `destination` holding the two given byte strings, and `hard_link`.
   */
  function FileLinkEvent(source: seq<byte>, destination: seq<byte>, hardLink: bool, headerSize: nat)
    : (r: SentEvent)
    ensures r.kind == FILE_LINK && r.payload.Link? && r.payload.hardLink == hardLink
    ensures r.bufferLen == |r.blob| == |source| + |destination| && r.headerSize == headerSize
    ensures r.payload.source == BufferIndex(0, |source|)
    ensures r.payload.destination == BufferIndex(|source|, |destination|)
    ensures Slice(r.blob, r.payload.source) == source
    ensures Slice(r.blob, r.payload.destination) == destination
  {
    TwoPathRecord(Link(BufferIndex(0, |source|), BufferIndex(|source|, |destination|), hardLink),
                  source, destination, headerSize)
  }

  /** What `on_path_rename` sends: FILE_RENAME, `source` and `destination` holding the two paths. */
  function FileRenameEvent(source: seq<byte>, destination: seq<byte>, headerSize: nat): (r: SentEvent)
    ensures r.kind == FILE_RENAME && r.payload.Rename?
    ensures r.bufferLen == |r.blob| == |source| + |destination| && r.headerSize == headerSize
    ensures r.payload.source == BufferIndex(0, |source|)
    ensures r.payload.destination == BufferIndex(|source|, |destination|)
    ensures Slice(r.blob, r.payload.source) == source
    ensures Slice(r.blob, r.payload.destination) == destination
  {
    TwoPathRecord(Rename(BufferIndex(0, |source|), BufferIndex(|source|, |destination|)),
                  source, destination, headerSize)
  }

  // ---------------------------------------------------------------------------
  // The event, the output channel and the hooks

  /** One `struct fs_event`: its kind, its buffer and its kind-specific fields. */
  class FsEvent {
    const kind: int
    const buffer: Buffer
    var payload: Payload

    constructor (kind: int, capacity: nat)
      ensures this.kind == kind && fresh(buffer) && fresh(buffer.data)
      ensures buffer.Valid() && buffer.Contents == [] && buffer.data.Length == capacity
    {
      this.kind := kind;
      buffer := new Buffer(capacity);
      payload := Created(BufferIndex(0, 0));
    }
  }

  /**
   * The `events` output map, as the sequence of records submitted to it.
   * `headerSize` is `sizeof(struct fs_event)` and `bufferMax` is BUFFER_MAX,
   * the capacity of an event's buffer.
   */
  class Output {
    const headerSize: nat
    const bufferMax: nat
    var sent: seq<SentEvent>

    constructor (headerSize: nat, bufferMax: nat)
      ensures this.headerSize == headerSize && this.bufferMax == bufferMax && sent == []
    {
      this.headerSize := headerSize;
      this.bufferMax := bufferMax;
      sent := [];
    }

    /**
     * `fs_event_init`: an event of the given kind with an empty buffer, or
     * null when no event storage can be had (`available` is false).
     */
    method FsEventInit(kind: int, available: bool) returns (e: FsEvent?)
      ensures available <==> e != null
      ensures e != null ==>
        && fresh(e) && fresh(e.buffer) && fresh(e.buffer.data)
        && e.kind == kind && e.buffer.Valid() && e.buffer.Contents == []
        && e.buffer.data.Length == bufferMax
    {
      if !available {
        return null;
      }
      e := new FsEvent(kind, bufferMax);
    }

    /** `output_event`: submit `e` with header size `size` and `len` used buffer bytes. */
    method OutputEvent(e: FsEvent, size: nat, len: nat)
      requires len <= e.buffer.data.Length
      modifies this
      ensures sent == old(sent) + [SentEvent(e.kind, e.payload, e.buffer.data[..len], size, len)]
    {
      sent := sent + [SentEvent(e.kind, e.payload, e.buffer.data[..len], size, len)];
    }
  }

  method OnPathMknod(out: Output, ns: Namespace, dir: Path, dentry: Dentry, available: bool)
    requires |Resolve(ns, dentry, dir.mnt)| <= out.bufferMax
    modifies out
    ensures out.sent == old(out.sent) +
      (if available then [FileCreatedEvent(Resolve(ns, dentry, dir.mnt), out.headerSize)] else [])
  {
    var event := out.FsEventInit(FILE_CREATED, available);
    if event == null {
      return;
    }
    var created := GetPathStr(ns, dentry, dir, event.buffer);
    ghost var p := Resolve(ns, dentry, dir.mnt);
    assert event.buffer.data[..event.buffer.len] == p;
    event.payload := Created(created);
    out.OutputEvent(event, out.headerSize, event.buffer.len);
    assert out.sent == old(out.sent) + [SentEvent(FILE_CREATED, Created(BufferIndex(0, |p|)), p, out.headerSize, |p|)];
  }

  method OnPathUnlink(out: Output, ns: Namespace, dir: Path, dentry: Dentry, available: bool)
    requires |Resolve(ns, dentry, dir.mnt)| <= out.bufferMax
    modifies out
    ensures out.sent == old(out.sent) +
      (if available then [FileDeletedEvent(Resolve(ns, dentry, dir.mnt), out.headerSize)] else [])
  {
    var event := out.FsEventInit(FILE_DELETED, available);
    if event == null {
      return;
    }
    var deleted := GetPathStr(ns, dentry, dir, event.buffer);
    ghost var p := Resolve(ns, dentry, dir.mnt);
    assert event.buffer.data[..event.buffer.len] == p;
    event.payload := Deleted(deleted);
    out.OutputEvent(event, out.headerSize, event.buffer.len);
    assert out.sent == old(out.sent) + [SentEvent(FILE_DELETED, Deleted(BufferIndex(0, |p|)), p, out.headerSize, |p|)];
  }

  method OnFileOpen(out: Output, ns: Namespace, file: File, available: bool)
    requires |Resolve(ns, file.fPath.dentry, file.fPath.mnt)| <= out.bufferMax
    modifies out
    ensures out.sent == old(out.sent) +
      (if available
       then [FileOpenedEvent(Resolve(ns, file.fPath.dentry, file.fPath.mnt), FlagsToInt(file.fFlags), out.headerSize)]
       else [])
  {
    var event := out.FsEventInit(FILE_OPENED, available);
    if event == null {
      return;
    }
    var path := file.fPath;
    var filename := GetPathStr(ns, path.dentry, path, event.buffer);
    ghost var p := Resolve(ns, path.dentry, path.mnt);
    assert event.buffer.data[..event.buffer.len] == p;
    event.payload := Opened(filename, FlagsToInt(file.fFlags));
    out.OutputEvent(event, out.headerSize, event.buffer.len);
    assert out.sent == old(out.sent) +
      [SentEvent(FILE_OPENED, Opened(BufferIndex(0, |p|), FlagsToInt(file.fFlags)), p, out.headerSize, |p|)];
  }

  method OnPathLink(out: Output, ns: Namespace, oldDentry: Dentry, newDir: Path, newDentry: Dentry,
                    available: bool)
    requires |Resolve(ns, newDentry, newDir.mnt)| + |Resolve(ns, oldDentry, newDir.mnt)| <= out.bufferMax
    modifies out
    ensures out.sent == old(out.sent) +
      (if available
       then [FileLinkEvent(Resolve(ns, newDentry, newDir.mnt), Resolve(ns, oldDentry, newDir.mnt), true, out.headerSize)]
       else [])
  {
    var event := out.FsEventInit(FILE_LINK, available);
    if event == null {
      return;
    }
    var source := GetPathStr(ns, newDentry, newDir, event.buffer);
    ghost var src := Resolve(ns, newDentry, newDir.mnt);
    assert event.buffer.Contents == src;
    var destination := GetPathStr(ns, oldDentry, newDir, event.buffer);
    ghost var dst := Resolve(ns, oldDentry, newDir.mnt);
    assert event.buffer.data[..event.buffer.len] == src + dst;
    event.payload := Link(source, destination, true);
    out.OutputEvent(event, out.headerSize, event.buffer.len);
    assert out.sent == old(out.sent) + [SentEvent(FILE_LINK,
      Link(BufferIndex(0, |src|), BufferIndex(|src|, |dst|), true), src + dst, out.headerSize, |src + dst|)];
  }

  /** `old_name` is the symlink target: the bytes before its terminating NUL. */
  method OnPathSymlink(out: Output, ns: Namespace, dir: Path, dentry: Dentry, oldName: seq<byte>,
                       available: bool)
    requires forall k :: 0 <= k < |oldName| ==> oldName[k] != 0
    requires |Resolve(ns, dentry, dir.mnt)| + |oldName| <= out.bufferMax
    modifies out
    ensures out.sent == old(out.sent) +
      (if available then [FileLinkEvent(Resolve(ns, dentry, dir.mnt), oldName, false, out.headerSize)] else [])
  {
    var event := out.FsEventInit(FILE_LINK, available);
    if event == null {
      return;
    }
    var source := GetPathStr(ns, dentry, dir, event.buffer);
    ghost var src := Resolve(ns, dentry, dir.mnt);
    assert event.buffer.Contents == src;
    var destination := event.buffer.IndexInit();
    destination := event.buffer.AppendStr(destination, oldName);
    assert source == BufferIndex(0, |src|) && destination == BufferIndex(|src|, |oldName|);
    assert event.buffer.data[..event.buffer.len] == src + oldName;
    event.payload := Link(source, destination, false);
    out.OutputEvent(event, out.headerSize, event.buffer.len);
    assert out.sent == old(out.sent) + [SentEvent(FILE_LINK,
      Link(BufferIndex(0, |src|), BufferIndex(|src|, |oldName|), false), src + oldName, out.headerSize,
      |src + oldName|)];
  }

  method OnPathMkdir(out: Output, ns: Namespace, dir: Path, dentry: Dentry, available: bool)
    requires |Resolve(ns, dentry, dir.mnt)| <= out.bufferMax
    modifies out
    ensures out.sent == old(out.sent) +
      (if available then [DirCreatedEvent(Resolve(ns, dentry, dir.mnt), out.headerSize)] else [])
  {
    var event := out.FsEventInit(DIR_CREATED, available);
    if event == null {
      return;
    }
    var dirCreated := GetPathStr(ns, dentry, dir, event.buffer);
    ghost var p := Resolve(ns, dentry, dir.mnt);
    assert event.buffer.data[..event.buffer.len] == p;
    event.payload := DirCreated(dirCreated);
    out.OutputEvent(event, out.headerSize, event.buffer.len);
    assert out.sent == old(out.sent) + [SentEvent(DIR_CREATED, DirCreated(BufferIndex(0, |p|)), p, out.headerSize, |p|)];
  }

  method OnPathRmdir(out: Output, ns: Namespace, dir: Path, dentry: Dentry, available: bool)
    requires |Resolve(ns, dentry, dir.mnt)| <= out.bufferMax
    modifies out
    ensures out.sent == old(out.sent) +
      (if available then [DirDeletedEvent(Resolve(ns, dentry, dir.mnt), out.headerSize)] else [])
  {
    var event := out.FsEventInit(DIR_DELETED, available);
    if event == null {
      return;
    }
    var dirDeleted := GetPathStr(ns, dentry, dir, event.buffer);
    ghost var p := Resolve(ns, dentry, dir.mnt);
    assert event.buffer.data[..event.buffer.len] == p;
    event.payload := DirDeleted(dirDeleted);
    out.OutputEvent(event, out.headerSize, event.buffer.len);
    assert out.sent == old(out.sent) + [SentEvent(DIR_DELETED, DirDeleted(BufferIndex(0, |p|)), p, out.headerSize, |p|)];
  }

  method OnPathRename(out: Output, ns: Namespace, oldDir: Path, oldDentry: Dentry, newDir: Path,
                      newDentry: Dentry, available: bool)
    requires |Resolve(ns, oldDentry, oldDir.mnt)| + |Resolve(ns, newDentry, newDir.mnt)| <= out.bufferMax
    modifies out
    ensures out.sent == old(out.sent) +
      (if available
       then [FileRenameEvent(Resolve(ns, oldDentry, oldDir.mnt), Resolve(ns, newDentry, newDir.mnt), out.headerSize)]
       else [])
  {
    var event := out.FsEventInit(FILE_RENAME, available);
    if event == null {
      return;
    }
    var source := GetPathStr(ns, oldDentry, oldDir, event.buffer);
    ghost var src := Resolve(ns, oldDentry, oldDir.mnt);
    assert event.buffer.Contents == src;
    var destination := GetPathStr(ns, newDentry, newDir, event.buffer);
    ghost var dst := Resolve(ns, newDentry, newDir.mnt);
    assert event.buffer.data[..event.buffer.len] == src + dst;
    event.payload := Rename(source, destination);
    out.OutputEvent(event, out.headerSize, event.buffer.len);
    assert out.sent == old(out.sent) + [SentEvent(FILE_RENAME,
      Rename(BufferIndex(0, |src|), BufferIndex(|src|, |dst|)), src + dst, out.headerSize, |src + dst|)];
  }
}
