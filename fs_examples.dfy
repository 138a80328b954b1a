/**
 * Worked filesystem events: what a consumer reads back from the slices of a
 * rename and of a hard link between two entries of one directory.
 */
module FsExamples {
  import opened Buffers
  import opened Kernel
  import opened PathResolver
  import opened PathProperties
  import opened FileSystemMonitor

  /** The chain from `leaf` up through `dir` to the root 0. */
  lemma {:induction false} TwoLevelChain(ns: Namespace, dir: Dentry, leaf: Dentry)
    requires ns.parent(dir) == 0 && ns.parent(leaf) == dir && dir != 0 && leaf != 0 && leaf != dir
    ensures OrdinaryChain(ns, leaf, [leaf, dir], 0) && Ancestor(ns, leaf, 2) == 0
    ensures NamesOf(ns, [leaf, dir]) == [ns.name(leaf), ns.name(dir)]
  {
    assert [leaf, dir][1..] == [dir];
    assert OrdinaryChain(ns, dir, [dir], 0);
    assert Ancestor(ns, dir, 1) == 0;
    assert NamesOf(ns, [dir]) == [ns.name(dir)];
  }

  /** Two names listed leaf first, joined root first. */
  lemma {:induction false} JoinTwoReversed(d: seq<byte>, name: seq<byte>)
    ensures JoinPath(Reverse([name, d])) == SLASH + d + SLASH + name
  {
    assert Reverse([name, d]) == [d, name] by {
      assert [name, d][1..] == [d];
      assert Reverse([d]) == [d];
    }
    assert [d, name][1..] == [name];
    assert JoinPath([name]) == SLASH + name;
  }

  /**
   * An entry two levels below the root 0 of the top mount 0, inside the
   * directory `dir` named `d`, resolves to "/" d "/" name.
   */
  lemma {:induction false} TwoLevelPath(ns: Namespace, dir: Dentry, leaf: Dentry, d: seq<byte>, name: seq<byte>)
    requires ns.mntRoot(0) == 0 && ns.mntParent(0) == 0
    requires ns.parent(dir) == 0 && ns.parent(leaf) == dir && dir != 0 && leaf != 0 && leaf != dir
    requires ns.name(dir) == d && ns.name(leaf) == name && d != [] && name != []
    ensures Resolve(ns, leaf, 0) == SLASH + d + SLASH + name
  {
    TwoLevelChain(ns, dir, leaf);
    ResolveWithinMount(ns, 0, leaf, [leaf, dir]);
    JoinTwoReversed(d, name);
  }

  /**
   * Renaming "/a/old" to "/a/new" (entries 2 and 3 in directory 1, named `a`,
   * of the top mount 0): the event's `source` slice reads "/a/old" and its
   * `destination` slice reads "/a/new".
   */
  lemma {:induction false} ExampleRename(ns: Namespace, a: seq<byte>, oldName: seq<byte>, newName: seq<byte>,
                                         headerSize: nat)
    requires ns.mntRoot(0) == 0 && ns.mntParent(0) == 0
    requires ns.parent(1) == 0 && ns.parent(2) == 1 && ns.parent(3) == 1
    requires ns.name(1) == a && ns.name(2) == oldName && ns.name(3) == newName
    requires a != [] && oldName != [] && newName != []
    ensures var e := FileRenameEvent(Resolve(ns, 2, 0), Resolve(ns, 3, 0), headerSize);
      && e.kind == FILE_RENAME
      && Slice(e.blob, e.payload.source) == SLASH + a + SLASH + oldName
      && Slice(e.blob, e.payload.destination) == SLASH + a + SLASH + newName
  {
    TwoLevelPath(ns, 1, 2, a, oldName);
    TwoLevelPath(ns, 1, 3, a, newName);
  }

  /**
   * Hard-linking the existing "/a/old" as "/a/new": the event's `source`
   * slice reads the NEW name "/a/new", its `destination` slice the existing
   * "/a/old", and `hard_link` is set.
   */
  lemma {:induction false} ExampleHardLink(ns: Namespace, a: seq<byte>, oldName: seq<byte>, newName: seq<byte>,
                                           headerSize: nat)
    requires ns.mntRoot(0) == 0 && ns.mntParent(0) == 0
    requires ns.parent(1) == 0 && ns.parent(2) == 1 && ns.parent(3) == 1
    requires ns.name(1) == a && ns.name(2) == oldName && ns.name(3) == newName
    requires a != [] && oldName != [] && newName != []
    ensures var e := FileLinkEvent(Resolve(ns, 3, 0), Resolve(ns, 2, 0), true, headerSize);
      && e.kind == FILE_LINK && e.payload.hardLink
      && Slice(e.blob, e.payload.source) == SLASH + a + SLASH + newName
      && Slice(e.blob, e.payload.destination) == SLASH + a + SLASH + oldName
  {
    TwoLevelPath(ns, 1, 2, a, oldName);
    TwoLevelPath(ns, 1, 3, a, newName);
  }
}
