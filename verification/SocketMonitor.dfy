/** The registration table of src/socket_monitor.c.  `kernel` is what epoll was
    told: for each registered descriptor, the record and the event mask. */
module SocketMonitor {
  import opened Common
  import HT = HashTable
  import Primes

  const MAX_EVENTS: nat := 1024

  /** `callback` says whether the callback pointer is set; `user` is its user data. */
  class SocketInfo {
    const fd: int
    var callback: bool
    var user: nat
    var events: set<Poll>

    constructor (fd: int)
      ensures this.fd == fd && !callback && events == {}
    {
      this.fd, callback, user, events := fd, false, 0, {};
    }
  }

  datatype Interest = Interest(si: SocketInfo, mask: set<Poll>)

  /** One entry of the array `epoll_wait` fills. */
  datatype Ready = Ready(si: SocketInfo, events: set<Poll>)

  function HashFd(fd: int): nat {
    if fd >= 0 then fd else if fd + 4294967296 >= 0 then fd + 4294967296 else 0
  }

  // ----- a batch of events on descriptors alone -----

  /** What a callback may do to the table.  A descriptor is added only when the
      kernel hands it out, that is, when it is not in use. */
  datatype Op =
    | AddOp(fd: int, user: nat, events: set<Poll>)
    | AddEventsOp(fd: int, events: set<Poll>)
    | DelEventsOp(fd: int, events: set<Poll>)
    | DelOp(fd: int)

  function AfterOp(registered: set<int>, op: Op): set<int> {
    match op
    case AddOp(fd, _, _) => registered + {fd}
    case DelOp(fd) => registered - {fd}
    case _ => registered
  }

  function AfterOps(registered: set<int>, ops: seq<Op>): set<int>
    decreases |ops|
  {
    if ops == [] then registered else AfterOps(AfterOp(registered, ops[0]), ops[1..])
  }

  /** The registered descriptors after a batch; `scripts[k]` is what the callback
      of entry `k` does if it is called. */
  function AfterBatch(registered: set<int>, fds: seq<int>, scripts: seq<seq<Op>>): set<int>
    requires |fds| == |scripts|
    decreases |fds|
  {
    if fds == [] then registered
    else
      AfterBatch(if fds[0] in registered then AfterOps(registered, scripts[0]) else registered,
                 fds[1..], scripts[1..])
  }

  /** Which entries of a batch have their callback called. */
  function Called(registered: set<int>, fds: seq<int>, scripts: seq<seq<Op>>): (called: seq<bool>)
    requires |fds| == |scripts|
    ensures |called| == |fds|
    decreases |fds|
  {
    if fds == [] then []
    else [fds[0] in registered] +
         Called(if fds[0] in registered then AfterOps(registered, scripts[0]) else registered, fds[1..], scripts[1..])
  }

  /** The callback of an entry is called exactly when its descriptor is still
      registered after everything the callbacks before it did. */
  lemma {:induction false} CalledExact(registered: set<int>, fds: seq<int>, scripts: seq<seq<Op>>, k: nat)
    requires |fds| == |scripts| && k < |fds|
    ensures Called(registered, fds, scripts)[k] <==> fds[k] in AfterBatch(registered, fds[..k], scripts[..k])
    decreases |fds|
  {
    if k > 0 {
      var next := if fds[0] in registered then AfterOps(registered, scripts[0]) else registered;
      CalledExact(next, fds[1..], scripts[1..], k - 1);
      assert fds[..k][1..] == fds[1..][..k - 1] && scripts[..k][1..] == scripts[1..][..k - 1];
    }
  }

  function TotalOps(scripts: seq<seq<Op>>): nat {
    if scripts == [] then 0 else |scripts[0]| + TotalOps(scripts[1..])
  }

  class Monitor {
    const sockets: HT.Table<int, SocketInfo>
    var socketCount: int
    ghost var infos: set<SocketInfo>
    ghost var kernel: map<int, Interest>

    /** Each descriptor ever seen keeps one record, found through the hash. */
    ghost predicate TableOk()
      reads this`infos, sockets, sockets.table, sockets.nodes
    {
      && sockets.Valid() && sockets.unique
      && (forall fd | fd in sockets.Contents() :: sockets.Contents()[fd] in infos && sockets.Contents()[fd].fd == fd)
      && (forall si | si in infos :: si.fd in sockets.Contents() && sockets.Contents()[si.fd] == si)
    }

    /** A record is registered with the kernel exactly when its callback is set,
        and the kernel has the mask the record has. */
    ghost predicate InfoOk(si: SocketInfo)
      reads this`kernel, si
    {
      && (si.callback <==> si.fd in kernel)
      && (si.fd in kernel ==> kernel[si.fd] == Interest(si, si.events))
      && (!si.callback ==> si.events == {})
    }

    ghost predicate KernelOk()
      reads this`infos, this`kernel, infos
    {
      && (forall si | si in infos :: InfoOk(si))
      && (forall fd | fd in kernel :: kernel[fd].si in infos && kernel[fd].si.fd == fd)
    }

    /** The records with a callback. */
    ghost function Registered(): set<SocketInfo>
      reads this`infos, infos`callback
    {
      set si | si in infos && si.callback
    }

    ghost predicate Valid()
      reads this, sockets, sockets.table, sockets.nodes, infos
    {
      TableOk() && KernelOk() && socketCount == |Registered()|
    }

    /** `sm_new` */
    constructor ()
      ensures Valid() && infos == {} && kernel == map[]
    {
      sockets := new HT.Table<int, SocketInfo>(HashFd);
      socketCount, infos, kernel := 0, {}, map[];
      new;
      assert Registered() == {};
    }

    /** Put a new record into the hash. */
    method Record(si: SocketInfo)
      requires TableOk() && sockets.elementCount < Primes.LIMIT && si.fd !in sockets.Contents() && si !in infos
      modifies this`infos, sockets, sockets.table, sockets.nodes
      ensures TableOk() && infos == old(infos) + {si}
      ensures sockets.elementCount == old(sockets.elementCount) + 1
      ensures forall n | n in sockets.nodes :: n in old(sockets.nodes) || fresh(n)
      ensures sockets.table == old(sockets.table) || fresh(sockets.table)
    {
      hide HT.Table.Valid, HT.Table.Contents, Primes.Inserted;
      ghost var m := sockets.Contents();
      NotKnown(si.fd);
      ghost var node := sockets.Insert(si.fd, si);
      assert sockets.Contents() == m[si.fd := si];
      infos := infos + {si};
    }

    /** What the hash finds for a descriptor. */
    method LookUp(fd: int) returns (si: SocketInfo?)
      requires TableOk()
      ensures si != null ==> si in infos && si.fd == fd
      ensures si == null ==> fd !in sockets.Contents() && forall s | s in infos :: s.fd != fd
    {
      hide HT.Table.Valid, HT.Table.Contents;
      var found := sockets.Find(fd);
      si := if found.Some? then found.value else null;
    }

    /** The record of a descriptor, made if it is not there yet. */
    method InfoFor(fd: int) returns (si: SocketInfo)
      requires Valid() && sockets.elementCount < Primes.LIMIT
      modifies this`infos, sockets, sockets.table, sockets.nodes
      ensures Valid() && si in infos && si.fd == fd
      ensures infos == old(infos) + {si} && (si in old(infos) || (fresh(si) && !si.callback))
      ensures sockets.elementCount <= old(sockets.elementCount) + 1 && kernel == old(kernel)
      ensures forall n | n in sockets.nodes :: n in old(sockets.nodes) || fresh(n)
      ensures sockets.table == old(sockets.table) || fresh(sockets.table)
    {
      hide TableOk;
      var found := LookUp(fd);
      if found != null {
        si := found;
        assert infos == infos + {si};
      } else {
        si := new SocketInfo(fd);
        Record(si);
        assert Registered() == old(Registered());
      }
    }

    lemma NotKnown(fd: int)
      requires sockets.Indexed() && fd !in sockets.Contents()
      ensures fd !in sockets.byKey
    {
    }

    /** Switching the callback of one record changes the count by one. */
    twostate lemma CountMoves(si: SocketInfo)
      requires infos == old(infos) && si in infos && si.callback != old(si.callback)
      requires forall o | o in infos && o != si :: o.callback == old(o.callback)
      ensures |Registered()| == |old(Registered())| + (if si.callback then 1 else -1)
    {
      if si.callback {
        assert Registered() == old(Registered()) + {si};
      } else {
        assert Registered() == old(Registered()) - {si};
      }
    }

    /** The last part of `sm_add_socket`: fill in the record and tell epoll. */
    method Register(si: SocketInfo, user: nat, events: set<Poll>)
      requires Valid() && si in infos && si.fd !in kernel
      modifies this`socketCount, this`kernel, si
      ensures Valid() && si.callback && si.user == user && si.events == events
      ensures kernel == old(kernel)[si.fd := Interest(si, events)]
    {
      hide TableOk;
      assert InfoOk(si);
      si.callback, si.user, si.events := true, user, events;
      socketCount := socketCount + 1;
      CountMoves(si);
      kernel := kernel[si.fd := Interest(si, events)];
      forall o | o in infos ensures InfoOk(o) {
        if o != si {
          assert old(InfoOk(o));
          Apart(o, si);
        }
      }
    }

    /** Different records have different descriptors. */
    lemma Apart(a: SocketInfo, b: SocketInfo)
      requires TableOk() && a in infos && b in infos && a != b
      ensures a.fd != b.fd
    {
    }

    /** `sm_add_socket` for a descriptor the kernel has just handed out. */
    method AddSocket(fd: int, user: nat, events: set<Poll>) returns (si: SocketInfo)
      requires Valid() && fd !in kernel && sockets.elementCount < Primes.LIMIT
      modifies this`socketCount, this`kernel, this`infos, infos, sockets, sockets.table, sockets.nodes
      ensures Valid() && si in infos && si.fd == fd && si.callback && si.user == user && si.events == events
      ensures infos == old(infos) + {si} && (si in old(infos) || fresh(si))
      ensures sockets.elementCount <= old(sockets.elementCount) + 1
      ensures kernel == old(kernel)[fd := Interest(si, events)]
      ensures forall o | o in old(infos) && o != si :: unchanged(o)
      ensures forall n | n in sockets.nodes :: n in old(sockets.nodes) || fresh(n)
      ensures sockets.table == old(sockets.table) || fresh(sockets.table)
    {
      hide Valid;
      si := InfoFor(fd);
      Register(si, user, events);
    }

    /** `sm_add_events`; nothing is said to epoll when nothing is new. */
    method AddEvents(si: SocketInfo, events: set<Poll>)
      requires Valid() && si in infos && si.callback
      modifies this`kernel, si`events
      ensures Valid() && si.events == old(si.events) + events
      ensures kernel == old(kernel)[si.fd := Interest(si, si.events)]
    {
      assert InfoOk(si);
      if events <= si.events {
        assert si.events + events == si.events;
        assert kernel == kernel[si.fd := Interest(si, si.events)];
        return;
      }
      SetEvents(si, si.events + events);
    }

    /** `sm_del_events` */
    method DelEvents(si: SocketInfo, events: set<Poll>)
      requires Valid() && si in infos && si.callback
      modifies this`kernel, si`events
      ensures Valid() && si.events == old(si.events) - events
      ensures kernel == old(kernel)[si.fd := Interest(si, si.events)]
    {
      SetEvents(si, si.events - events);
    }

    /** EPOLL_CTL_MOD */
    method SetEvents(si: SocketInfo, events: set<Poll>)
      requires Valid() && si in infos && si.callback
      modifies this`kernel, si`events
      ensures Valid() && si.events == events
      ensures kernel == old(kernel)[si.fd := Interest(si, events)]
    {
      hide TableOk;
      assert InfoOk(si);
      si.events := events;
      kernel := kernel[si.fd := Interest(si, events)];
      assert Registered() == old(Registered());
      forall o | o in infos ensures InfoOk(o) {
        if o != si {
          assert old(InfoOk(o));
          Apart(o, si);
        }
      }
    }

    /** `sm_del_socket`: the record stays in the hash, without a callback. */
    method DelSocket(si: SocketInfo)
      requires Valid() && si in infos && si.callback
      modifies this`socketCount, this`kernel, si
      ensures Valid() && !si.callback && si.user == 0 && si.events == {}
      ensures kernel == old(kernel) - {si.fd}
    {
      hide TableOk;
      assert InfoOk(si);
      kernel := kernel - {si.fd};
      si.events, si.callback, si.user := {}, false, 0;
      socketCount := socketCount - 1;
      CountMoves(si);
      forall o | o in infos ensures InfoOk(o) {
        if o != si {
          assert old(InfoOk(o));
          Apart(o, si);
        }
      }
    }

    /** Records and nodes are only ever added. */
    twostate predicate Grown()
      reads this`infos, sockets`table, sockets`nodes
    {
      && old(infos) <= infos
      && (forall o | o in infos :: o in old(infos) || fresh(o))
      && (forall n | n in sockets.nodes :: n in old(sockets.nodes) || fresh(n))
      && (sockets.table == old(sockets.table) || fresh(sockets.table))
    }

    lemma RegisteredIs(si: SocketInfo)
      requires Valid() && si in infos
      ensures si.callback <==> si.fd in kernel
      ensures si.fd in kernel ==> kernel[si.fd].si == si
    {
      hide TableOk;
      assert InfoOk(si);
    }

    lemma KernelInTable(fd: int)
      requires Valid() && fd in kernel
      ensures kernel[fd].si in infos && kernel[fd].si.fd == fd
    {
      hide TableOk;
    }

    /** One thing a callback does. */
    method RunOp(op: Op)
      requires Valid() && sockets.elementCount < Primes.LIMIT
      modifies this`socketCount, this`kernel, this`infos, infos, sockets, sockets.table, sockets.nodes
      ensures Valid() && Grown() && kernel.Keys == AfterOp(old(kernel.Keys), op)
      ensures sockets.elementCount <= old(sockets.elementCount) + 1
    {
      hide KernelOk, HT.Table.Valid, HT.Table.Contents;
      var si := LookUp(op.fd);
      if op.fd in kernel {
        KernelInTable(op.fd);
      }
      if si != null {
        RegisteredIs(si);
      }
      match op
      case AddOp(fd, user, events) =>
        if si == null || !si.callback {
          var added := AddSocket(fd, user, events);
        } else {
          assert kernel.Keys == kernel.Keys + {fd};
        }
      case AddEventsOp(fd, events) =>
        if si != null && si.callback {
          AddEvents(si, events);
        }
      case DelEventsOp(fd, events) =>
        if si != null && si.callback {
          DelEvents(si, events);
        }
      case DelOp(fd) =>
        if si != null && si.callback {
          DelSocket(si);
        }
    }

    /** A callback, called only through a record that is in the table and
        registered with the kernel; `ops` is what it does. */
    method Dispatch(si: SocketInfo, events: set<Poll>, ops: seq<Op>)
      requires Valid() && sockets.elementCount + |ops| < Primes.LIMIT
      requires si in infos && si.callback && si.fd in kernel && kernel[si.fd].si == si
      modifies this`socketCount, this`kernel, this`infos, infos, sockets, sockets.table, sockets.nodes
      ensures Valid() && Grown() && kernel.Keys == AfterOps(old(kernel.Keys), ops)
      ensures sockets.elementCount <= old(sockets.elementCount) + |ops|
    {
      hide Valid;
      var k := 0;
      while k < |ops|
        invariant k <= |ops| && Valid() && Grown()
        invariant sockets.elementCount <= old(sockets.elementCount) + k
        invariant AfterOps(kernel.Keys, ops[k..]) == AfterOps(old(kernel.Keys), ops)
      {
        RunOp(ops[k]);
        assert ops[k..][1..] == ops[k + 1..];
        k := k + 1;
      }
    }

    /** `sm_poll` on the batch the kernel returned: whatever the callbacks remove
        or add meanwhile, only records still in the table are looked at, and only
        registered ones are called. */
    method Poll(batch: seq<Ready>, scripts: seq<seq<Op>>) returns (called: seq<bool>)
      requires Valid() && |batch| == |scripts| <= MAX_EVENTS
      requires sockets.elementCount + TotalOps(scripts) < Primes.LIMIT
      requires forall k | 0 <= k < |batch| :: batch[k].si in infos
      modifies this`socketCount, this`kernel, this`infos, infos, sockets, sockets.table, sockets.nodes
      ensures Valid() && Grown()
      ensures called == Called(old(kernel.Keys), FdsOf(batch), scripts)
      ensures kernel.Keys == AfterBatch(old(kernel.Keys), FdsOf(batch), scripts)
    {
      hide Valid;
      called := [];
      var k := 0;
      while k < |batch|
        invariant k <= |batch| == |scripts| && Valid() && Grown()
        invariant sockets.elementCount + TotalOps(scripts[k..]) < Primes.LIMIT
        invariant called + Called(kernel.Keys, FdsOf(batch[k..]), scripts[k..]) ==
                  Called(old(kernel.Keys), FdsOf(batch), scripts)
        invariant AfterBatch(kernel.Keys, FdsOf(batch[k..]), scripts[k..]) ==
                  AfterBatch(old(kernel.Keys), FdsOf(batch), scripts)
      {
        var si := batch[k].si;
        assert FdsOf(batch[k..])[1..] == FdsOf(batch[k + 1..]);
        assert scripts[k..][1..] == scripts[k + 1..];
        RegisteredIs(si);
        called := called + [si.callback];
        if si.callback {
          Dispatch(si, batch[k].events, scripts[k]);
        }
        k := k + 1;
      }
    }
  }

  function FdsOf(batch: seq<Ready>): (fds: seq<int>)
    ensures |fds| == |batch| && forall k | 0 <= k < |batch| :: fds[k] == batch[k].si.fd
  {
    seq(|batch|, k requires 0 <= k < |batch| => batch[k].si.fd)
  }
}
