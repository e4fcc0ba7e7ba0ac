/** The descriptor table of one process, as the kernel keeps it. */
module Descriptors {
  import opened CTypes
  import opened Wrappers

  /** Error numbers the callers tell apart; EIO stands for every other failure. */
  datatype Errno = EBADF | EINTR | EINVAL | EMFILE | ENOMEM | EIO

  datatype Result<+T> = Ok(value: T) | Err(error: Errno)

  /** A descriptor names an open file description and carries its own close-on-exec flag. */
  datatype Descriptor = Descriptor(file: nat, cloexec: bool)

  type Table = map<int, Descriptor>

  predicate ValidTable(table: Table) {
    forall fd :: fd in table ==> 0 <= fd <= INT_MAX
  }

  /** What a number denotes: a descriptor, or nothing when it is closed. */
  function Get(table: Table, fd: int): Option<Descriptor> {
    if fd in table then Some(table[fd]) else None
  }

  /** Tables that agree at every number are the same table. */
  lemma SameTable(a: Table, b: Table)
    requires forall fd :: Get(a, fd) == Get(b, fd)
    ensures a == b
  {
    forall fd ensures fd in a.Keys <==> fd in b.Keys {
      assert Get(a, fd) == Get(b, fd);
    }
    assert a.Keys == b.Keys;
    forall fd | fd in a ensures a[fd] == b[fd] {
      assert Get(a, fd) == Get(b, fd);
    }
  }

  /**
   * The system calls the library relies on. Each may fail; which free number a
   * duplication picks, and when a call fails, is left open. faults counts the failures
   * that neither a bad number nor a signal explains.
   */
  class Kernel {
    var table: Table
    // Signals still to arrive: every EINTR uses one up.
    var interrupts: nat
    // Every number close was called with, in order.
    ghost var closes: seq<int>
    ghost var faults: nat

    constructor (table: Table, interrupts: nat)
      requires ValidTable(table)
      ensures this.table == table && this.interrupts == interrupts && closes == [] && faults == 0
    {
      this.table := table;
      this.interrupts := interrupts;
      closes, faults := [], 0;
    }

    ghost predicate Valid()
      reads this
    {
      ValidTable(table)
    }

    /** Whether a call fails for reasons of its own. */
    method MayFault() returns (fault: bool)
      modifies this`faults
      ensures faults == old(faults) + if fault then 1 else 0
    {
      fault := *;
      if fault {
        faults := faults + 1;
      }
    }

    /** malloc and realloc. */
    method Allocate() returns (granted: bool)
      modifies this`faults
      ensures faults == old(faults) + if granted then 0 else 1
    {
      var refused := MayFault();
      return !refused;
    }

    /** fcntl(source, F_DUPFD_CLOEXEC, minimum). */
    method DupCloexecMin(source: int, minimum: int) returns (r: Result<int>)
      requires Valid()
      modifies this`table, this`interrupts, this`faults
      ensures Valid()
      ensures r.Ok? ==>
        && source in old(table)
        && 0 <= minimum <= r.value <= INT_MAX
        && r.value !in old(table)
        && table == old(table)[r.value := Descriptor(old(table)[source].file, true)]
      ensures r.Err? ==> table == old(table)
      ensures r == Err(EINTR) ==> interrupts < old(interrupts)
      ensures interrupts <= old(interrupts)
      ensures r == Err(EBADF) ==> source !in old(table)
      ensures faults == old(faults) + if r.Ok? || r.error == EBADF || r.error == EINTR then 0 else 1
    {
      var interrupted: bool := *;
      if interrupted && interrupts > 0 {
        interrupts := interrupts - 1;
        return Err(EINTR);
      }
      if source !in table {
        return Err(EBADF);
      }
      var fault := MayFault();
      if fault {
        return Err(EMFILE);
      }
      if minimum < 0 || !(exists n :: minimum <= n <= INT_MAX && n !in table) {
        faults := faults + 1;
        return Err(EMFILE);
      }
      var fd :| minimum <= fd <= INT_MAX && fd !in table;
      table := table[fd := Descriptor(table[source].file, true)];
      return Ok(fd);
    }

    /** open(path, flags | O_CLOEXEC): any free number, naming a description of the path's file. */
    method OpenCloexec(file: nat) returns (r: Result<int>)
      requires Valid()
      modifies this`table, this`faults
      ensures Valid()
      ensures r.Ok? ==>
        && 0 <= r.value <= INT_MAX
        && r.value !in old(table)
        && table == old(table)[r.value := Descriptor(file, true)]
      ensures r.Err? ==> table == old(table)
      ensures faults == old(faults) + if r.Ok? then 0 else 1
    {
      var fault := MayFault();
      if fault {
        return Err(EMFILE);
      }
      if !(exists n :: 0 <= n <= INT_MAX && n !in table) {
        faults := faults + 1;
        return Err(EMFILE);
      }
      var fd :| 0 <= fd <= INT_MAX && fd !in table;
      table := table[fd := Descriptor(file, true)];
      return Ok(fd);
    }

    /** dup2(source, target). */
    method Dup2(source: int, target: int) returns (r: Result<()>)
      requires Valid()
      modifies this`table, this`faults
      ensures Valid()
      ensures r.Ok? ==>
        && source in old(table)
        && table == if source == target then old(table)
                    else old(table)[target := Descriptor(old(table)[source].file, false)]
      ensures r.Err? ==> table == old(table)
      ensures r == Err(EBADF) <==> source !in old(table) || !(0 <= target <= INT_MAX)
      ensures faults == old(faults) + if r.Ok? || r.error == EBADF then 0 else 1
    {
      if source !in table || target < 0 || target > INT_MAX {
        return Err(EBADF);
      }
      var fault := MayFault();
      if fault {
        return Err(EIO);
      }
      if source != target {
        table := table[target := Descriptor(table[source].file, false)];
      }
      return Ok(());
    }

    /** close(fd): the number is free afterwards, whatever close reports. */
    method Close(fd: int) returns (r: Result<()>)
      requires Valid()
      modifies this`table, this`closes, this`faults
      ensures Valid()
      ensures table == old(table) - {fd} && closes == old(closes) + [fd]
      ensures r == Err(EBADF) <==> fd !in old(table)
      ensures faults == old(faults) + if r.Ok? || r.error == EBADF then 0 else 1
    {
      closes := closes + [fd];
      if fd !in table {
        return Err(EBADF);
      }
      table := table - {fd};
      var fault := MayFault();
      return if fault then Err(EIO) else Ok(());
    }

    /** fcntl(fd, F_GETFD). */
    method GetCloexec(fd: int) returns (r: Result<bool>)
      modifies this`faults
      ensures r == Err(EBADF) <==> fd !in table
      ensures r.Ok? ==> fd in table && r.value == table[fd].cloexec
      ensures faults == old(faults) + if r.Ok? || r.error == EBADF then 0 else 1
    {
      if fd !in table {
        return Err(EBADF);
      }
      var fault := MayFault();
      return if fault then Err(EIO) else Ok(table[fd].cloexec);
    }

    /** fcntl(fd, F_SETFD, flags). */
    method SetCloexec(fd: int, cloexec: bool) returns (r: Result<()>)
      requires Valid()
      modifies this`table, this`faults
      ensures Valid()
      ensures r.Ok? ==> fd in old(table) && table == old(table)[fd := old(table)[fd].(cloexec := cloexec)]
      ensures r.Err? ==> table == old(table)
      ensures r == Err(EBADF) <==> fd !in old(table)
      ensures faults == old(faults) + if r.Ok? || r.error == EBADF then 0 else 1
    {
      if fd !in table {
        return Err(EBADF);
      }
      var fault := MayFault();
      if fault {
        return Err(EIO);
      }
      table := table[fd := table[fd].(cloexec := cloexec)];
      return Ok(());
    }
  }
}
