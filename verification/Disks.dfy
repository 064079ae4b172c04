// A directory on a disk that may lose power: what survives a crash.
module Disks {
  import opened Net

  type Bytes = seq<bv8>

  /** `clean` says the data has reached stable storage; otherwise a crash may leave anything in it. */
  datatype File = File(data: Bytes, clean: bool)

  /** `dirs` are the versions of the directory since it was last fsynced, oldest first: a crash may
      leave any of them. Each maps names to inode numbers; inodes below `next` have been used. */
  datatype Disk = Disk(files: map<nat, File>, dirs: seq<map<string, nat>>, next: nat) {
    ghost predicate Valid() {
      && dirs != []
      && (forall i :: i in files ==> i < next)
      && forall v, name :: 0 <= v < |dirs| && name in dirs[v] ==> dirs[v][name] in files
    }

    function Dir(): map<string, nat>
      requires dirs != []
    {
      dirs[|dirs| - 1]
    }

    /** What a reader sees under a name while the machine stays up. */
    function Visible(name: string): Option<Bytes>
      requires dirs != []
    {
      if name in Dir() && Dir()[name] in files then Some(files[Dir()[name]].data) else None
    }

    // The system calls.

    function Create(name: string): Disk
      requires dirs != []
    {
      Disk(files[next := File([], false)], dirs + [Dir()[name := next]], next + 1)
    }

    function Write(i: nat, chunk: Bytes): Disk
      requires i in files
    {
      this.(files := files[i := File(files[i].data + chunk, false)])
    }

    function Fsync(i: nat): Disk
      requires i in files
    {
      this.(files := files[i := files[i].(clean := true)])
    }

    function Rename(from: string, to: string): Disk
      requires dirs != [] && from in Dir()
    {
      this.(dirs := dirs + [(Dir() - {from})[to := Dir()[from]]])
    }

    function Remove(name: string): Disk
      requires dirs != []
    {
      this.(dirs := dirs + [Dir() - {name}])
    }

    function FsyncDir(): Disk
      requires dirs != []
    {
      this.(dirs := [Dir()])
    }
  }

  /** A directory version may show `seen` under `name` after a crash. */
  ghost predicate Shows(d: Disk, dir: map<string, nat>, name: string, seen: Option<Bytes>) {
    if name in dir && dir[name] in d.files then
      seen.Some? && (d.files[dir[name]].clean ==> seen.value == d.files[dir[name]].data)
    else seen.None?
  }

  /** After a crash the disk may show `seen` under `name`. */
  ghost predicate MayShow(d: Disk, name: string, seen: Option<Bytes>) {
    exists v :: 0 <= v < |d.dirs| && Shows(d, d.dirs[v], name, seen)
  }

  /** The disk and every state it has passed through, since a crash may strike in any of them. */
  class FileSystem {
    var disk: Disk
    ghost var history: seq<Disk>

    ghost predicate Valid()
      reads this
    {
      disk.Valid()
    }

    method Apply(d: Disk)
      requires Valid() && d.Valid()
      modifies this
      ensures Valid() && disk == d && history == old(history) + [d]
    {
      disk := d;
      history := history + [d];
    }
  }
}
