/**
 * The kernel's directory-entry and mount graphs, seen as a read-only
 * collaborator.  Each field stands for one `BPF_CORE_READ` the probes perform;
 * dentries and mounts are identified by their addresses.
 */
module Kernel {
  import opened Buffers

  type Dentry = int
  type Mount = int

  datatype Namespace = Namespace(
    parent: Dentry -> Dentry,       // dentry->d_parent
    name: Dentry -> seq<byte>,      // dentry->d_name (its bytes; the length is |name|)
    mntRoot: Mount -> Dentry,       // mount->mnt.mnt_root
    mntParent: Mount -> Mount,      // mount->mnt_parent
    mntMountpoint: Mount -> Dentry  // mount->mnt_mountpoint
  )

  /** `struct path`: the mount a dentry is reached through, and the dentry. */
  datatype Path = Path(mnt: Mount, dentry: Dentry)
}
