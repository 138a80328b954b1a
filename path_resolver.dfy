/**
 * `get_path_str` and its two loop callbacks: the bounded reconstruction of an
 * absolute path from a dentry and the mount it was reached through.
 *
 * The collect pass (`get_dentry_name`) walks from the dentry towards the root,
 * one step per iteration, writing the name met at step i into slot i; the emit
 * pass (`append_path_component`) writes the slots from the last to the first,
 * each non-empty one preceded by "/".  The spec functions below describe each
 * pass on values; the class and methods do the same work in place.
 */
module PathResolver {
  import opened Buffers
  import opened Kernel

  const MAX_PATH_COMPONENTS: nat := 20

  /** Where the collect pass stands: the current dentry and mount (`mnt_p`). */
  datatype Walk = Walk(dentry: Dentry, mnt: Mount)

  /** What one step of the collect pass does. */
  datatype Step =
    | Record(name: seq<byte>, next: Walk)  // an ordinary entry: its name is recorded
    | Cross(next: Walk)                    // root of a non-top mount: go to its mountpoint
    | Stop                                 // a detached entry, or the root of the top mount

  /** The decision taken by `get_dentry_name` at position `w`. */
  function StepOf(ns: Namespace, w: Walk): Step
  {
    var root := ns.mntRoot(w.mnt);
    var parent := ns.parent(w.dentry);
    if w.dentry == root || w.dentry == parent then
      if w.dentry != root then Stop
      else if w.mnt != ns.mntParent(w.mnt) then
        Cross(Walk(ns.mntMountpoint(w.mnt), ns.mntParent(w.mnt)))
      else Stop
    else Record(ns.name(w.dentry), Walk(parent, w.mnt))
  }

  /** The component slots after the `memset`: every one empty. */
  function NoComponents(): (r: seq<seq<byte>>)
    ensures |r| == MAX_PATH_COMPONENTS
    ensures forall k :: 0 <= k < |r| ==> r[k] == []
  {
    seq(MAX_PATH_COMPONENTS, _ => [])
  }

  /**
   * The slots left by the collect pass when steps i .. 19 remain, starting at
   * `w` with the slots `slots`.  Slots before step i are never written.
   */
  function Collect(ns: Namespace, w: Walk, i: nat, slots: seq<seq<byte>>): (r: seq<seq<byte>>)
    requires i <= MAX_PATH_COMPONENTS && |slots| == MAX_PATH_COMPONENTS
    ensures |r| == MAX_PATH_COMPONENTS
    decreases MAX_PATH_COMPONENTS - i
  {
    if i == MAX_PATH_COMPONENTS then slots
    else
      match StepOf(ns, w)
      case Stop => slots
      case Cross(next) => Collect(ns, next, i + 1, slots)
      case Record(name, next) => Collect(ns, next, i + 1, slots[i := name])
  }

  /** What `append_path_component` writes for one slot. */
  function Piece(name: seq<byte>): seq<byte>
  {
    if |name| == 0 then [] else SLASH + name
  }

  /**
   * The emit pass over the slots lo .. |slots| - 1, visited from the highest
   * index down to lo.
   */
  function EmitFrom(slots: seq<seq<byte>>, lo: nat): seq<byte>
    decreases |slots| - lo
  {
    if lo >= |slots| then [] else EmitFrom(slots, lo + 1) + Piece(slots[lo])
  }

  /** The emit pass over all of `slots`. */
  function Emit(slots: seq<seq<byte>>): seq<byte>
  {
    EmitFrom(slots, 0)
  }

  /** The bytes `get_path_str` appends for `dentry` reached through `mnt`. */
  function Resolve(ns: Namespace, dentry: Dentry, mnt: Mount): seq<byte>
  {
    Emit(Collect(ns, Walk(dentry, mnt), 0, NoComponents()))
  }

  lemma {:induction false} AppendAssoc<T>(a: seq<T>, b: seq<T>, c: seq<T>)
    ensures (a + b) + c == a + (b + c)
  {
  }

  /** Emitting from a higher slot never produces more bytes. */
  lemma {:induction false} EmitFromShorter(s: seq<seq<byte>>, lo: nat)
    ensures |EmitFrom(s, lo)| <= |Emit(s)|
    decreases lo
  {
    if 0 < lo <= |s| {
      EmitFromShorter(s, lo - 1);
    }
  }

  /** `struct get_path_ctx`: the state the two loop callbacks share. */
  class PathCtx {
    const ns: Namespace
    var dentry: Dentry
    var mnt: Mount         // mnt_p; vfsmnt is always &mnt_p->mnt
    var mntParentP: Mount  // mnt_parent_p
    const componentName: array<seq<byte>>
    const componentLen: array<nat>

    ghost predicate Valid()
      reads this, componentName, componentLen
    {
      && componentName.Length == MAX_PATH_COMPONENTS
      && componentLen.Length == MAX_PATH_COMPONENTS
      && mntParentP == ns.mntParent(mnt)
      && forall k :: 0 <= k < MAX_PATH_COMPONENTS ==> componentLen[k] == |componentName[k]|
    }

    ghost function Position(): Walk
      reads this
    {
      Walk(dentry, mnt)
    }

    ghost function Names(): seq<seq<byte>>
      reads this, componentName
    {
      componentName[..]
    }

    /** The set-up in `get_path_str`: both arrays zeroed, the walk at `dentry`. */
    constructor (ns: Namespace, dentry: Dentry, mnt: Mount)
      ensures Valid() && fresh(componentName) && fresh(componentLen)
      ensures this.ns == ns && Position() == Walk(dentry, mnt)
      ensures Names() == NoComponents()
    {
      this.ns := ns;
      componentName := new seq<byte>[MAX_PATH_COMPONENTS](_ => []);
      componentLen := new nat[MAX_PATH_COMPONENTS](_ => 0);
      this.dentry := dentry;
      this.mnt := mnt;
      mntParentP := ns.mntParent(mnt);
      new;
      assert Names() == NoComponents();
    }

    /** `get_dentry_name`: one step of the collect pass; non-zero means stop. */
    method GetDentryName(i: nat) returns (r: int)
      requires Valid()
      modifies this, componentName, componentLen
      ensures Valid()
      ensures var s := StepOf(ns, old(Position()));
        && (r != 0 <==> s.Stop?)
        && Position() == (if s.Stop? then old(Position()) else s.next)
        && Names() == (if s.Record? && i < MAX_PATH_COMPONENTS then old(Names())[i := s.name]
                       else old(Names()))
    {
      var mntRoot := ns.mntRoot(mnt);
      var dParent := ns.parent(dentry);
      if dentry == mntRoot || dentry == dParent {
        if dentry != mntRoot {
          // the entry is its own parent but not the mount's root: detached
          return 1;
        }
        if mnt != mntParentP {
          // root of a mount that is not the top one: continue at its mountpoint
          dentry := ns.mntMountpoint(mnt);
          mnt := ns.mntParent(mnt);
          mntParentP := ns.mntParent(mnt);
          return 0;
        }
        // root of the top mount: the path is complete
        return 1;
      }
      var entry := ns.name(dentry);
      if i < MAX_PATH_COMPONENTS {
        componentLen[i] := |entry|;
        componentName[i] := entry;
      }
      dentry := dParent;
      return 0;
    }

    /**
     * `append_path_component`: iteration i writes slot 19 - i, if non-empty,
     * as "/" followed by its bytes; non-zero means stop.  (In the source `t` is
     * computed in 32-bit unsigned arithmetic; for every i >= 20 it still falls
     * outside 0 .. 19.)
     */
    method AppendPathComponent(i: nat, buf: Buffer, index: BufferIndex)
      returns (r: int, index': BufferIndex)
      requires Valid() && buf.Valid()
      requires i < MAX_PATH_COMPONENTS ==>
        |buf.Contents| + |Piece(Names()[MAX_PATH_COMPONENTS - 1 - i])| <= buf.data.Length
      modifies buf, buf.data
      ensures buf.Valid()
      ensures r == (if i < MAX_PATH_COMPONENTS then 0 else 1)
      ensures i < MAX_PATH_COMPONENTS ==>
        var piece := Piece(Names()[MAX_PATH_COMPONENTS - 1 - i]);
        && buf.Contents == old(buf.Contents) + piece
        && index' == BufferIndex(index.start, index.len + |piece|)
      ensures i >= MAX_PATH_COMPONENTS ==> buf.Contents == old(buf.Contents) && index' == index
    {
      var t: int := MAX_PATH_COMPONENTS - i - 1;
      if t < 0 || t >= MAX_PATH_COMPONENTS {
        return 1, index;
      }
      var name := componentName[t];
      var len := componentLen[t];
      if len == 0 {
        return 0, index;
      }
      index' := buf.AppendStr(index, SLASH);
      index' := buf.AppendStr(index', name[..len]);
      assert name[..len] == name;
      AppendAssoc(old(buf.Contents), SLASH, name);
      return 0, index';
    }
  }

  /** Steps from i on leave the slots before i as they were. */
  lemma {:induction false} CollectKeepsEarlier(ns: Namespace, w: Walk, i: nat, slots: seq<seq<byte>>, k: nat)
    requires i <= MAX_PATH_COMPONENTS && |slots| == MAX_PATH_COMPONENTS
    requires k < i
    ensures Collect(ns, w, i, slots)[k] == slots[k]
    decreases MAX_PATH_COMPONENTS - i
  {
    if i < MAX_PATH_COMPONENTS {
      match StepOf(ns, w)
      case Stop =>
      case Cross(next) => CollectKeepsEarlier(ns, next, i + 1, slots, k);
      case Record(name, next) => CollectKeepsEarlier(ns, next, i + 1, slots[i := name], k);
    }
  }

  /** One step of the collect pass, unfolded. */
  lemma {:induction false} CollectStep(ns: Namespace, w: Walk, i: nat, slots: seq<seq<byte>>)
    requires i < MAX_PATH_COMPONENTS && |slots| == MAX_PATH_COMPONENTS
    ensures var s := StepOf(ns, w);
      Collect(ns, w, i, slots) == match s
        case Stop => slots
        case Cross(next) => Collect(ns, next, i + 1, slots)
        case Record(name, next) => Collect(ns, next, i + 1, slots[i := name])
  {
  }

  /** The first `LOOP` of `get_path_str`: up to 20 calls of `get_dentry_name`. */
  method CollectLoop(c: PathCtx)
    requires c.Valid() && c.Names() == NoComponents()
    modifies c, c.componentName, c.componentLen
    ensures c.Valid()
    ensures c.Names() == Collect(c.ns, old(c.Position()), 0, NoComponents())
  {
    ghost var names := Collect(c.ns, c.Position(), 0, c.Names());
    var i := 0;
    while i < MAX_PATH_COMPONENTS
      invariant 0 <= i <= MAX_PATH_COMPONENTS
      invariant c.Valid()
      invariant Collect(c.ns, c.Position(), i, c.Names()) == names
    {
      ghost var w, before := c.Position(), c.Names();
      var r := c.GetDentryName(i);
      CollectStep(c.ns, w, i, before);
      if r != 0 {
        break;
      }
      i := i + 1;
    }
  }

  /** The second `LOOP` of `get_path_str`: 20 calls of `append_path_component`. */
  method EmitLoop(c: PathCtx, buf: Buffer, index0: BufferIndex) returns (index: BufferIndex)
    requires c.Valid() && buf.Valid()
    requires |buf.Contents| + |Emit(c.Names())| <= buf.data.Length
    modifies buf, buf.data
    ensures buf.Valid()
    ensures buf.Contents == old(buf.Contents) + Emit(c.Names())
    ensures index == BufferIndex(index0.start, index0.len + |Emit(c.Names())|)
  {
    ghost var names := c.Names();
    ghost var start := buf.Contents;
    ghost var emitted: seq<byte> := [];
    index := index0;
    var i := 0;
    while i < MAX_PATH_COMPONENTS
      invariant 0 <= i <= MAX_PATH_COMPONENTS
      invariant c.Names() == names
      invariant buf.Valid() && buf.Contents == start + emitted
      invariant emitted == EmitFrom(names, MAX_PATH_COMPONENTS - i)
      invariant index == BufferIndex(index0.start, index0.len + |emitted|)
    {
      ghost var t := MAX_PATH_COMPONENTS - 1 - i;
      EmitFromShorter(names, t);
      assert EmitFrom(names, t) == emitted + Piece(names[t]);
      var r;
      r, index := c.AppendPathComponent(i, buf, index);
      if r != 0 {
        break;
      }
      AppendAssoc(start, emitted, Piece(names[t]));
      emitted := emitted + Piece(names[t]);
      i := i + 1;
    }
  }

  /**
   * `get_path_str`: append the path of `dentry`, reached through `path.mnt`, to
   * `buf`, and return the slice holding it.  Each pass is a `LOOP` of 20
   * iterations that stops early when the callback returns non-zero.
   */
  method GetPathStr(ns: Namespace, dentry: Dentry, path: Path, buf: Buffer)
    returns (index: BufferIndex)
    requires buf.Valid()
    requires |buf.Contents| + |Resolve(ns, dentry, path.mnt)| <= buf.data.Length
    modifies buf, buf.data
    ensures buf.Valid()
    ensures buf.Contents == old(buf.Contents) + Resolve(ns, dentry, path.mnt)
    ensures index == BufferIndex(|old(buf.Contents)|, |Resolve(ns, dentry, path.mnt)|)
  {
    var c := new PathCtx(ns, dentry, path.mnt);
    index := buf.IndexInit();
    CollectLoop(c);
    assert unchanged(buf, buf.data);
    assert Emit(c.Names()) == Resolve(ns, dentry, path.mnt);
    index := EmitLoop(c, buf, index);
  }
}
