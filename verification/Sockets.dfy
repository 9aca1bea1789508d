/** The socket of src/socket.c on the heap: a status machine with an output queue
    of partly sent buffers, registered with the monitor.  Every method is proved
    to follow the function of `SocketModel` with the same name. */
module Sockets {
  import opened Common
  import opened SocketModel
  import opened SocketMonitor
  import SM = SocketModel
  import Primes

  /** Which callback of its owner an event ends with. */
  datatype Notice = NoCallback | ErrorCallback(code: int) | ConnectCallback(code: int) | DataCallback

  /** The first of the conditions the kernel reports that the callback looks at. */
  datatype Readiness = ErrorOrHangup(code: int) | MayWrite(code: int) | MayRead

  /** One accepted call of `send` for the head item, after `sent` was accepted. */
  lemma SendsMore(sent: Bytes, queue: seq<Item>, sends: seq<SendOutcome>, count: nat)
    requires queue != [] && queue[0].offset < |queue[0].buffer|
    requires sends != [] && sends[0] == Sent(count) && count > 0
    ensures AfterSending(sent, Drain(queue, sends)) ==
            AfterSending(sent + Chunk(queue[0], count), Drain(Advance(queue, count), sends[1..]))
  {
    AppendAssociates(sent, Chunk(queue[0], count), Drain(Advance(queue, count), sends[1..]).sent);
  }

  /** A call of `send` that stops the flush. */
  lemma SendsNoMore(sent: Bytes, queue: seq<Item>, sends: seq<SendOutcome>)
    requires queue != [] && queue[0].offset < |queue[0].buffer|
    requires sends == [] || !sends[0].Sent? || sends[0].count == 0
    ensures AfterSending(sent, Drain(queue, sends)) == Drained(queue, sent, sends != [] && sends[0].Failed?)
  {
  }

  /** What the kernel takes of a single block, one answer at a time. */
  lemma TookOne(length: nat, sends: seq<SendOutcome>)
    ensures length == 0 ==> Took([length], sends) == 0
    ensures sends == [] || !sends[0].Sent? || sends[0].count == 0 ==> Took([length], sends) == 0
    ensures length > 0 && sends != [] && sends[0].Sent? && sends[0].count > 0 ==>
              var n := if sends[0].count < length then sends[0].count else length;
              Took([length], sends) == n + Took([length - n], sends[1..])
  {
    assert [length][1..] == [];
    if length > 0 && sends != [] && sends[0].Sent? && sends[0].count > 0 {
      var n := if sends[0].count < length then sends[0].count else length;
      assert [length - n] + [] == [length - n];
    }
  }

  lemma SendsNothing(queue: seq<Item>, sends: seq<SendOutcome>)
    ensures AfterSending([], Drain(queue, sends[0..])) == Drain(queue, sends)
  {
    assert sends[0..] == sends;
  }

  /** The head of `before` is being offered: `sent` of it is gone, `used` answers
      have been given, and what remains of the flush is that of `queue`. */
  ghost predicate Offering(before: seq<Item>, sends: seq<SendOutcome>, queue: seq<Item>, used: nat, sent: Bytes,
                           blocked: bool, failed: bool) {
    && used <= |sends| && before != [] && queue != [] && queue[1..] == before[1..]
    && queue[0].offset <= |queue[0].buffer|
    && (blocked || failed ==> queue[0].offset < |queue[0].buffer|)
    && Drain(before, sends) ==
         (if failed then Drained(queue, sent, true)
          else if blocked then Drained(queue, sent, false)
          else AfterSending(sent, Drain(queue, sends[used..])))
    && var head := Unsent(before[0]);
       && |sent| <= |head| && sent == head[..|sent|] && Unsent(queue[0]) == head[|sent|..]
       && Took([|head|], sends) ==
            |sent| + if blocked || failed then 0 else Took([|head| - |sent|], sends[used..])
  }

  lemma OfferingStarts(queue: seq<Item>, sends: seq<SendOutcome>)
    requires queue != [] && queue[0].offset <= |queue[0].buffer|
    ensures Offering(queue, sends, queue, 0, [], false, false)
  {
    SendsNothing(queue, sends);
    assert sends[0..] == sends;
  }

  lemma OfferingTakes(before: seq<Item>, sends: seq<SendOutcome>, queue: seq<Item>, used: nat, sent: Bytes, count: nat)
    requires Offering(before, sends, queue, used, sent, false, false) && queue[0].offset < |queue[0].buffer|
    requires used < |sends| && sends[used] == Sent(count) && count > 0
    ensures var chunk := Chunk(queue[0], count);
            Offering(before, sends, Advance(queue, count), used + 1, sent + chunk, false, false)
  {
    hide Took, Drain, AfterSending;
    var chunk, head := Chunk(queue[0], count), Unsent(before[0]);
    SendsMore(sent, queue, sends[used..], count);
    TookOne(|head| - |sent|, sends[used..]);
    assert sends[used..][1..] == sends[used + 1..];
    assert head[|sent|..][..|chunk|] == chunk;
  }

  lemma OfferingStops(before: seq<Item>, sends: seq<SendOutcome>, queue: seq<Item>, used: nat, sent: Bytes)
    requires Offering(before, sends, queue, used, sent, false, false) && queue[0].offset < |queue[0].buffer|
    requires used == |sends| || !sends[used].Sent? || sends[used].count == 0
    ensures var failed := used < |sends| && sends[used].Failed?;
            Offering(before, sends, queue, used, sent, !failed, failed)
  {
    hide Took, Drain, AfterSending;
    SendsNoMore(sent, queue, sends[used..]);
    TookOne(|Unsent(before[0])| - |sent|, sends[used..]);
  }

  lemma OfferingEnds(before: seq<Item>, sends: seq<SendOutcome>, queue: seq<Item>, used: nat, sent: Bytes,
                     blocked: bool, failed: bool)
    requires Offering(before, sends, queue, used, sent, blocked, failed)
    requires blocked || failed || queue[0].offset == |queue[0].buffer|
    ensures var head := Unsent(before[0]);
            var n := Took([|head|], sends);
            n <= |head| && sent == head[..n] && Unsent(queue[0]) == head[n..]
    ensures var stopped := queue[0].offset < |queue[0].buffer|;
            Drain(before, sends) ==
              if failed then Drained(queue, sent, true)
              else if stopped then Drained(queue, sent, false)
              else AfterSending(sent, Drain(queue, sends[used..]))
  {
    hide Took, Drain, AfterSending;
    TookOne(|Unsent(before[0])| - |sent|, sends[used..]);
  }

  class Socket {
    const monitor: Monitor
    var fd: int
    var si: SocketInfo?
    var status: Status
    var outputQueue: seq<Item>
    var dataCallback: bool
    ghost var submitted: Bytes
    ghost var accepted: Bytes
    ghost var lastMore: bool

    /** The socket as a value. */
    ghost function Model(): Sock
      reads this, si
    {
      Sock(status, fd != -1, outputQueue, if si == null then {} else si.events, dataCallback,
           submitted, accepted, lastMore)
    }

    /** The descriptor is open exactly when the record is registered for it. */
    ghost predicate Attached()
      reads this`fd, this`si, si, monitor`infos
    {
      && (fd == -1 <==> si == null)
      && (si != null ==> si in monitor.infos && si.callback && si.fd == fd)
    }

    ghost predicate Valid()
      reads this, si, monitor, monitor.sockets, monitor.sockets.table, monitor.sockets.nodes, monitor.infos
    {
      monitor.Valid() && Attached() && SockOk(Model())
    }

    /** What has become of the registration of a socket whose record was `before`:
        while the socket stays open, the kernel has the record's mask; a socket
        that was closed is unregistered and its record has lost its callback; no
        other descriptor is touched. */
    twostate predicate Accounted(before: SocketInfo?)
      reads this, before, monitor`kernel
    {
      && (fd == old(fd) || fd == -1) && (si == before || si == null)
      && (before == null ==> monitor.kernel == old(monitor.kernel))
      && (before != null && si != null ==>
           fd == old(fd) && monitor.kernel == old(monitor.kernel)[fd := Interest(before, before.events)])
      && (before != null && si == null ==>
           !before.callback && monitor.kernel == old(monitor.kernel) - {old(fd)})
    }

    /** An open socket's record is what the kernel has. */
    lemma InKernel()
      requires monitor.Valid() && Attached()
      ensures si != null ==> monitor.kernel[fd := Interest(si, si.events)] == monitor.kernel
    {
      hide Monitor.TableOk;
      if si != null {
        assert monitor.InfoOk(si);
      }
    }

    /** The success path of `sock_connect`: the kernel gave descriptor `fd`. */
    constructor Connect(monitor: Monitor, fd: int, user: nat)
      requires monitor.Valid() && fd != -1 && fd !in monitor.kernel && monitor.sockets.elementCount < Primes.LIMIT
      modifies monitor`socketCount, monitor`kernel, monitor`infos, monitor.infos
      modifies monitor.sockets, monitor.sockets.table, monitor.sockets.nodes
      ensures Valid() && Model() == Dialled() && this.monitor == monitor && this.fd == fd
      ensures si != null && si.user == user && monitor.kernel == old(monitor.kernel)[fd := Interest(si, {PollOut})]
    {
      hide Monitor.Valid;
      var record := monitor.AddSocket(fd, user, {PollOut});
      this.monitor, this.fd, si, status, outputQueue, dataCallback := monitor, fd, record, Connecting, [], false;
      submitted, accepted, lastMore := [], [], false;
    }

    /** The success path of `sock_accept`. */
    constructor Accept(monitor: Monitor, fd: int, user: nat)
      requires monitor.Valid() && fd != -1 && fd !in monitor.kernel && monitor.sockets.elementCount < Primes.LIMIT
      modifies monitor`socketCount, monitor`kernel, monitor`infos, monitor.infos
      modifies monitor.sockets, monitor.sockets.table, monitor.sockets.nodes
      ensures Valid() && Model() == Accepted() && this.monitor == monitor && this.fd == fd
      ensures si != null && si.user == user && monitor.kernel == old(monitor.kernel)[fd := Interest(si, {})]
    {
      hide Monitor.Valid;
      var record := monitor.AddSocket(fd, user, {});
      this.monitor, this.fd, si, status, outputQueue, dataCallback := monitor, fd, record, Connected, [], false;
      submitted, accepted, lastMore := [], [], false;
    }

    /** `sock_close` */
    method Close()
      requires monitor.Valid() && Attached()
      modifies this, si, monitor`socketCount, monitor`kernel
      ensures monitor.Valid() && Attached() && Model() == SM.Close(old(Model()))
      ensures Accounted(old(si)) && fd == -1
    {
      hide Monitor.Valid;
      if fd != -1 {
        monitor.DelSocket(si);
        si := null;
        fd := -1;
      }
      while outputQueue != []
        invariant monitor.Valid() && Attached() && fd == -1
        invariant si == null && Accounted(old(si))
        invariant dataCallback == old(dataCallback) && submitted == old(submitted)
        invariant accepted == old(accepted) && lastMore == old(lastMore)
        decreases |outputQueue|
      {
        outputQueue := outputQueue[1..];
      }
      status := Idle;
    }

    /** The inner loop of `sock_flush_data`: offer the head item to the kernel
        until it is gone or the kernel stops.  `used` outcomes were consumed. */
    method OfferHead(sends: seq<SendOutcome>) returns (used: nat, failed: bool, ghost sent: Bytes)
      requires outputQueue != [] && outputQueue[0].offset <= |outputQueue[0].buffer|
      modifies this`outputQueue, this`accepted
      ensures used <= |sends| && outputQueue != [] && outputQueue[1..] == old(outputQueue)[1..]
      ensures outputQueue[0].offset <= |outputQueue[0].buffer|
      ensures accepted == old(accepted) + sent
      ensures var stopped := outputQueue[0].offset < |outputQueue[0].buffer|;
              Drain(old(outputQueue), sends) ==
                if failed then Drained(outputQueue, sent, true)
                else if stopped then Drained(outputQueue, sent, false)
                else AfterSending(sent, Drain(outputQueue, sends[used..]))
      ensures var head := Unsent(old(outputQueue)[0]);
              var n := Took([|head|], sends);
              n <= |head| && sent == head[..n] && Unsent(outputQueue[0]) == head[n..]
    {
      hide Drain, AfterSending, Took, Offering;
      used, failed, sent := 0, false, [];
      ghost var before := outputQueue;
      OfferingStarts(before, sends);
      var blocked := false;
      while outputQueue[0].offset < |outputQueue[0].buffer| && !blocked && !failed
        invariant used <= |sends| && outputQueue != [] && outputQueue[1..] == before[1..]
        invariant outputQueue[0].offset <= |outputQueue[0].buffer|
        invariant accepted == old(accepted) + sent
        invariant Offering(before, sends, outputQueue, used, sent, blocked, failed)
        decreases |outputQueue[0].buffer| - outputQueue[0].offset, !blocked, !failed
      {
        var outcome := if used < |sends| then sends[used] else WouldBlock;
        match outcome
        case Sent(count) =>
          if count > 0 {
            var item := outputQueue[0];
            ghost var chunk := Chunk(item, count);
            var next := if item.offset + count <= |item.buffer| then item.offset + count else |item.buffer|;
            OfferingTakes(before, sends, outputQueue, used, sent, count);
            outputQueue := [item.(offset := next)] + outputQueue[1..];
            AppendAssociates(old(accepted), sent, chunk);
            accepted := accepted + chunk;
            sent := sent + chunk;
            used := used + 1;
          } else {
            OfferingStops(before, sends, outputQueue, used, sent);
            blocked := true;
          }
        case WouldBlock =>
          OfferingStops(before, sends, outputQueue, used, sent);
          blocked := true;
        case Failed =>
          OfferingStops(before, sends, outputQueue, used, sent);
          failed := true;
      }
      OfferingEnds(before, sends, outputQueue, used, sent, blocked, failed);
    }

    /** `sock_flush_data` */
    method FlushData(sends: seq<SendOutcome>)
      requires monitor.Valid() && Attached() && Flushable(Model())
      modifies this, si, monitor`socketCount, monitor`kernel
      ensures Valid() && Model() == SM.Flush(old(Model()), sends) && Accounted(old(si))
    {
      hide Monitor.Valid;
      InKernel();
      FlushKeepsOk(Model(), sends);
      var failed := Pump(sends);
      if failed {
        Close();
      } else if outputQueue == [] {
        monitor.DelEvents(si, {PollOut});
      } else {
        monitor.AddEvents(si, {PollOut});
      }
    }

    /** The loops of `sock_flush_data`. */
    method Pump(sends: seq<SendOutcome>) returns (failed: bool)
      requires WellQueued(outputQueue)
      modifies this`outputQueue, this`accepted
      ensures var r := Drain(old(outputQueue), sends);
              failed == r.failed && outputQueue == r.queue && accepted == old(accepted) + r.sent
      ensures var pending, n := Pending(old(outputQueue)), Took(Lengths(old(outputQueue)), sends);
              n <= |pending| && accepted == old(accepted) + pending[..n]
    {
      hide Took, Lengths, Pending, Unsent;
      DrainTakes(outputQueue, sends);
      failed := false;
      var k, stopped := 0, false;
      ghost var sent := [];
      while outputQueue != [] && !stopped && !failed
        invariant k <= |sends| && WellQueued(outputQueue)
        invariant accepted == old(accepted) + sent
        invariant Drain(old(outputQueue), sends) ==
                    if failed then Drained(outputQueue, sent, true)
                    else if stopped then Drained(outputQueue, sent, false)
                    else AfterSending(sent, Drain(outputQueue, sends[k..]))
        decreases |outputQueue|, !stopped, !failed
      {
        ghost var before, rest := sent, sends[k..];
        var used, bad, more := OfferHead(sends[k..]);
        assert sends[k..][used..] == sends[k + used..];
        AppendAssociates(old(accepted), before, more);
        sent := before + more;
        k := k + used;
        if bad {
          failed := true;
        } else if outputQueue[0].offset < |outputQueue[0].buffer| {
          stopped := true;
        } else {
          AppendAssociates(before, more, Drain(outputQueue, sends[k..]).sent);
          outputQueue := outputQueue[1..];
        }
      }
    }

    /** `sock_send` */
    method Send(data: Option<Bytes>, more: bool, sends: seq<SendOutcome>)
      requires Valid()
      modifies this, si, monitor`socketCount, monitor`kernel
      ensures Valid() && Model() == SM.Send(old(Model()), data, more, sends) && Accounted(old(si))
    {
      hide Monitor.Valid, SockOk, SM.Flush, Flushable;
      InKernel();
      SendKeepsOk(Model(), data, more, sends);
      Enqueue(data, more);
      if status == Connected && !more {
        FlushData(sends);
      }
    }

    /** `sock_send` up to the flush. */
    method Enqueue(data: Option<Bytes>, more: bool)
      requires Valid()
      modifies this`outputQueue, this`submitted, this`lastMore
      ensures monitor.Valid() && Attached()
      ensures Model() == (match data
                          case Some(b) => old(Model()).(queue := old(outputQueue) + [Item(b, 0)],
                                                        submitted := old(submitted) + b, lastMore := more)
                          case None => old(Model()).(lastMore := more))
      ensures status == Connected ==> Flushable(Model())
    {
      hide Monitor.Valid;
      if data.Some? {
        PendingSnoc(outputQueue, Item(data.value, 0));
        AppendAssociates(accepted, Pending(outputQueue), data.value);
        outputQueue := outputQueue + [Item(data.value, 0)];
        submitted := submitted + data.value;
      }
      lastMore := more;
    }

    /** `socket_callback` for a socket that is not listening; the notice names
        the callback of the owner that is called last. */
    method OnEvent(ready: Readiness, sends: seq<SendOutcome>) returns (notice: Notice)
      requires Valid() && fd != -1
      modifies this, si, monitor`socketCount, monitor`kernel
      ensures Valid() && Accounted(old(si))
      ensures Model() == match ready
                         case ErrorOrHangup(_) => SM.Close(old(Model()))
                         case MayWrite(code) => SM.Writable(old(Model()), code, sends)
                         case MayRead => SM.Unwanted(old(Model()))
      ensures notice == match ready
                        case ErrorOrHangup(code) => ErrorCallback(code)
                        case MayWrite(code) => if old(status) == Connecting then ConnectCallback(code) else NoCallback
                        case MayRead => if old(status) == Connected && dataCallback then DataCallback else NoCallback
    {
      hide Monitor.Valid;
      InKernel();
      notice := NoCallback;
      match ready
      case ErrorOrHangup(code) =>
        CloseKeepsOk(Model());
        Close();
        notice := ErrorCallback(code);
      case MayWrite(code) =>
        WritableKeepsOk(Model(), code, sends);
        if status == Connecting {
          FinishConnect(code);
          notice := ConnectCallback(code);
        } else if status == Connected {
          FlushData(sends);
        }
      case MayRead =>
        UnwantedKeepsOk(Model());
        if status == Connected {
          if dataCallback {
            notice := DataCallback;
          } else {
            monitor.DelEvents(si, {PollIn});
          }
        }
    }

    /** The connecting branch of `socket_callback`. */
    method FinishConnect(code: int)
      requires Valid() && status == Connecting
      modifies this`status, si`events, monitor`kernel
      ensures Valid() && Model() == SM.Writable(old(Model()), code, []) && Accounted(old(si))
    {
      hide Monitor.Valid;
      InKernel();
      WritableKeepsOk(Model(), code, []);
      if code != 0 {
        status := Idle;
      } else {
        status := Connected;
        if dataCallback {
          monitor.AddEvents(si, {PollIn});
        }
      }
    }

    /** `sock_recv`: how many bytes arrived. */
    method Receive(outcome: RecvOutcome) returns (count: nat)
      requires Valid()
      modifies this, si, monitor`socketCount, monitor`kernel
      ensures Valid() && Model() == SM.Receive(old(Model()), outcome) && Accounted(old(si))
      ensures count == if outcome.Data? then |outcome.bytes| else 0
    {
      hide Monitor.Valid;
      InKernel();
      ReceiveKeepsOk(Model(), outcome);
      match outcome
      case NoData => count := 0;
      case RecvFailed =>
        Close();
        count := 0;
      case EndOfStream =>
        Close();
        count := 0;
      case Data(bytes) =>
        count := |bytes|;
        if count == 0 {
          Close();
        }
    }

    /** `sock_set_data_callback` */
    method SetDataCallback(wants: bool)
      requires Valid()
      modifies this`dataCallback, si, monitor`kernel
      ensures Valid() && Model() == SM.WantData(old(Model()), wants) && Accounted(old(si))
      ensures dataCallback == wants
      ensures status == Connected && wants ==> si != null && PollIn in si.events && PollIn in monitor.kernel[fd].mask
    {
      hide Monitor.Valid;
      InKernel();
      WantDataKeepsOk(Model(), wants);
      dataCallback := wants;
      if status == Connected && dataCallback {
        monitor.AddEvents(si, {PollIn});
      }
    }
  }
}
