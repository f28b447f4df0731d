/**
 A small POSIX-like file system.

 Names are hard links to inodes and inodes hold contents.  A content is never
 edited in place: writers fill a fresh inode and rename it over its
 destination, which is how every publisher of this repository works.
 */
module FileSystems {

  /** How one step of a running process ended.

      Raised is a Python exception: the step had no effect and the process goes
      on in its handlers.  Crashed is the end of the process: no handler runs
      and only the disk survives. */
  datatype Outcome = Ok | Raised | Crashed {
    predicate IsFailure() {
      !Ok?
    }

    function PropagateFailure(): Outcome
      requires IsFailure()
    {
      this
    }
  }

  datatype Disk<N(==), C> = Disk(names: map<N, nat>, data: map<nat, C>, next: nat) {

    /** Every name leads to an allocated inode and `next` is unused. */
    ghost predicate Valid() {
      && (forall n | n in names :: names[n] in data)
      && (forall i | i in data :: i < next)
    }

    /** What a reader sees: the content behind each name. */
    ghost function Files(): map<N, C>
      requires Valid()
    {
      map n | n in names :: data[names[n]]
    }

    function Linked(src: N, dst: N): (d: Disk<N, C>)
      requires Valid() && src in names && dst !in names
      ensures d.Valid() && d.Files() == Files()[dst := Files()[src]]
      ensures d.names == names[dst := names[src]]
    {
      this.(names := names[dst := names[src]])
    }

    /** Two hard links of one file: renaming one over the other does nothing
        (IEEE Std 1003.1, rename()). */
    function Renamed(src: N, dst: N): (d: Disk<N, C>)
      requires Valid() && src in names
      ensures d.Valid()
      ensures dst in d.Files() && d.Files()[dst] == Files()[src]
      ensures if dst in names && names[dst] == names[src] then d == this
              else src !in d.names && d.Files() == (Files() - {src})[dst := Files()[src]]
    {
      if dst in names && names[dst] == names[src] then this
      else this.(names := (names - {src})[dst := names[src]])
    }

    function Unlinked(n: N): (d: Disk<N, C>)
      requires Valid()
      ensures d.Valid() && d.Files() == Files() - {n} && d.names == names - {n}
    {
      this.(names := names - {n})
    }

    function Created(n: N, c: C): (d: Disk<N, C>)
      requires Valid() && n !in names
      ensures d.Valid() && d.Files() == Files()[n := c]
      ensures d.names == names[n := next]
    {
      Disk(names[n := next], data[next := c], next + 1)
    }
  }

  /** The disk as running processes use it.  Every method may raise or crash
      instead of taking effect; a precondition of POSIX that does not hold makes
      it raise. */
  class FileSystem<N(==), C> {
    var disk: Disk<N, C>

    /** How many steps have failed for a reason other than their own arguments. */
    ghost var faults: nat

    /** link() fails when the source is missing or the target exists.  Targets are
        names that mkstemp or an operation id made unused; meeting one is a fault. */
    method Link(src: N, dst: N) returns (o: Outcome)
      requires disk.Valid()
      modifies this
      ensures disk.Valid()
      ensures o.Ok? ==> src in old(disk).names && dst !in old(disk).names && disk == old(disk).Linked(src, dst)
      ensures !o.Ok? ==> disk == old(disk)
      ensures faults >= old(faults)
      ensures faults == old(faults) ==> (o.Ok? <==> src in old(disk).names) && !o.Crashed?
    {
      if src !in disk.names {
        return Raised;
      }
      if dst in disk.names {
        faults := faults + 1;
        return Raised;
      }
      o := Fate();
      if o.Ok? {
        disk := disk.Linked(src, dst);
      }
    }

    /** os.replace */
    method Replace(src: N, dst: N) returns (o: Outcome)
      requires disk.Valid()
      modifies this
      ensures disk.Valid()
      ensures o.Ok? ==> src in old(disk).names && disk == old(disk).Renamed(src, dst)
      ensures !o.Ok? ==> disk == old(disk)
      ensures faults >= old(faults)
      ensures faults == old(faults) ==> (o.Ok? <==> src in old(disk).names) && !o.Crashed?
    {
      if src !in disk.names {
        return Raised;
      }
      o := Fate();
      if o.Ok? {
        disk := disk.Renamed(src, dst);
      }
    }

    /** Path.unlink(missing_ok=True) */
    method Unlink(n: N) returns (o: Outcome)
      requires disk.Valid()
      modifies this
      ensures disk.Valid()
      ensures o.Ok? ==> disk == old(disk).Unlinked(n)
      ensures !o.Ok? ==> disk == old(disk)
      ensures faults >= old(faults)
      ensures faults == old(faults) ==> o.Ok?
    {
      o := Fate();
      if o.Ok? {
        disk := disk.Unlinked(n);
      }
    }

    /** mkstemp, write and fsync of a file nobody else can name yet.  mkstemp looks
        for an unused name; not finding one is a fault. */
    method Create(n: N, c: C) returns (o: Outcome)
      requires disk.Valid()
      modifies this
      ensures disk.Valid()
      ensures o.Ok? ==> n !in old(disk).names && disk == old(disk).Created(n, c)
      ensures !o.Ok? ==> disk == old(disk)
      ensures faults >= old(faults)
      ensures faults == old(faults) ==> o.Ok?
    {
      if n in disk.names {
        faults := faults + 1;
        return Raised;
      }
      o := Fate();
      if o.Ok? {
        disk := disk.Created(n, c);
      }
    }

    /** os.lstat, raising when the name is missing. */
    method Lstat(n: N) returns (o: Outcome)
      modifies this`faults
      ensures o.Ok? ==> n in disk.names
      ensures faults >= old(faults)
      ensures faults == old(faults) ==> (o.Ok? <==> n in disk.names) && !o.Crashed?
    {
      if n !in disk.names {
        return Raised;
      }
      o := Fate();
    }

    method Read(n: N) returns (o: Outcome, content: C)
      requires disk.Valid() && n in disk.names
      modifies this`faults
      ensures o.Ok? ==> content == disk.Files()[n]
      ensures faults >= old(faults)
      ensures faults == old(faults) ==> o.Ok?
    {
      content := disk.data[disk.names[n]];
      o := Fate();
    }

    /** Any step may succeed, raise, or be the last thing a process does. */
    method Fate() returns (o: Outcome)
      modifies this`faults
      ensures faults == if o.Ok? then old(faults) else old(faults) + 1
    {
      if * {
        o := Ok;
      } else if * {
        o := Raised;
        faults := faults + 1;
      } else {
        o := Crashed;
        faults := faults + 1;
      }
    }
  }
}
