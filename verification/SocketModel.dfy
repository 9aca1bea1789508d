/** The state of one non-blocking socket as a value, and what every operation
    of src/socket.c does to it.  `send` and `recv` are driven by scripts: an
    arbitrary list of kernel outcomes, consumed from the front. */
module SocketModel {
  import opened Common

  datatype Status = Idle | Connecting | Connected

  /** One submitted buffer; `offset` bytes of it have been accepted already. */
  datatype Item = Item(buffer: Bytes, offset: nat)

  /** What one call of `send` answers.  A count above the number of bytes
      offered cannot happen; the model reads it as "all of them". */
  datatype SendOutcome = Sent(count: nat) | WouldBlock | Failed

  datatype RecvOutcome = Data(bytes: Bytes) | NoData | EndOfStream | RecvFailed

  /** `open` is `fd != -1`.  The last three fields are history: everything given
      to `sock_send`, everything the kernel accepted, and the `more` flag of the
      last `sock_send`. */
  datatype Sock = Sock(
    status: Status, open: bool, queue: seq<Item>, mask: set<Poll>, wantsData: bool,
    submitted: Bytes, accepted: Bytes, lastMore: bool)

  /** A socket just after a successful `sock_connect`. */
  function Dialled(): Sock {
    Sock(Connecting, true, [], {PollOut}, false, [], [], false)
  }

  /** A socket just after a successful `sock_accept`. */
  function Accepted(): Sock {
    Sock(Connected, true, [], {}, false, [], [], false)
  }

  function Unsent(item: Item): Bytes {
    if item.offset <= |item.buffer| then item.buffer[item.offset..] else []
  }

  /** The bytes the queue still has to hand to the kernel, in order. */
  function Pending(queue: seq<Item>): Bytes {
    if queue == [] then [] else Unsent(queue[0]) + Pending(queue[1..])
  }

  /** Offsets stay inside their buffers and only the head may be partly sent. */
  ghost predicate WellQueued(queue: seq<Item>) {
    forall i | 0 <= i < |queue| ::
      queue[i].offset <= |queue[i].buffer| && (i > 0 ==> queue[i].offset == 0)
  }

  datatype Drained = Drained(queue: seq<Item>, sent: Bytes, failed: bool)

  function AfterSending(sent: Bytes, rest: Drained): Drained {
    rest.(sent := sent + rest.sent)
  }

  /** The offset of an item after the kernel took `count` of its bytes. */
  function Offset(item: Item, count: nat): nat {
    if item.offset + count <= |item.buffer| then item.offset + count else |item.buffer|
  }

  /** The bytes the kernel takes when it answers `count` for the item. */
  function Chunk(item: Item, count: nat): Bytes
    requires item.offset <= |item.buffer|
  {
    item.buffer[item.offset..Offset(item, count)]
  }

  function Advance(queue: seq<Item>, count: nat): seq<Item>
    requires queue != []
  {
    [queue[0].(offset := Offset(queue[0], count))] + queue[1..]
  }

  /** Both loops of `sock_flush_data` up to the final update of the event mask. */
  function Drain(queue: seq<Item>, sends: seq<SendOutcome>): Drained
    decreases |sends| + |queue|
  {
    if queue == [] then Drained([], [], false)
    else
      var head := queue[0];
      if |head.buffer| <= head.offset then Drain(queue[1..], sends)
      else if sends == [] || sends[0].WouldBlock? || sends[0] == Sent(0) then Drained(queue, [], false)
      else if sends[0].Failed? then Drained(queue, [], true)
      else
        AfterSending(Chunk(head, sends[0].count), Drain(Advance(queue, sends[0].count), sends[1..]))
  }

  function Close(s: Sock): Sock {
    s.(status := Idle, open := false, queue := [], mask := {})
  }

  function Flush(s: Sock, sends: seq<SendOutcome>): Sock {
    var r := Drain(s.queue, sends);
    var s1 := s.(accepted := s.accepted + r.sent);
    if r.failed then Close(s1)
    else s1.(queue := r.queue, mask := if r.queue == [] then s.mask - {PollOut} else s.mask + {PollOut})
  }

  /** `sock_send`; `None` is the NULL buffer used to force a flush. */
  function Send(s: Sock, data: Option<Bytes>, more: bool, sends: seq<SendOutcome>): Sock {
    var s1 := match data
      case Some(b) => s.(queue := s.queue + [Item(b, 0)], submitted := s.submitted + b)
      case None => s;
    var s2 := s1.(lastMore := more);
    if s2.status == Connected && !more then Flush(s2, sends) else s2
  }

  /** `sock_send` of each buffer with `more` set, as a POST does for its stanzas. */
  function SendAll(s: Sock, buffers: seq<Bytes>): Sock
    decreases |buffers|
  {
    if buffers == [] then s else SendAll(Send(s, Some(buffers[0]), true, []), buffers[1..])
  }

  /** The EPOLLOUT branch of `socket_callback`. */
  function Writable(s: Sock, error: int, sends: seq<SendOutcome>): Sock {
    match s.status
    case Connecting =>
      if error != 0 then s.(status := Idle)
      else s.(status := Connected, mask := if s.wantsData then s.mask + {PollIn} else s.mask)
    case Connected => Flush(s, sends)
    case Idle => s
  }

  /** The EPOLLIN branch when nobody asked for data. */
  function Unwanted(s: Sock): Sock {
    if s.status == Connected && !s.wantsData then s.(mask := s.mask - {PollIn}) else s
  }

  function Receive(s: Sock, outcome: RecvOutcome): Sock {
    match outcome
    case EndOfStream => Close(s)
    case RecvFailed => Close(s)
    case Data(b) => if b == [] then Close(s) else s
    case NoData => s
  }

  function WantData(s: Sock, wants: bool): Sock {
    s.(wantsData := wants,
       mask := if s.status == Connected && wants then s.mask + {PollIn} else s.mask)
  }

  /** What holds of a socket between any two operations. */
  ghost predicate SockOk(s: Sock) {
    && WellQueued(s.queue)
    && s.accepted <= s.submitted
    && (s.open ==> s.accepted + Pending(s.queue) == s.submitted)
    && (s.status != Idle ==> s.open)
    && (!s.open ==> s.mask == {})
    && (s.status == Connecting ==> PollOut in s.mask)
    && (s.status == Connected && s.queue != [] && !s.lastMore ==> PollOut in s.mask)
    && (s.status == Connected && s.wantsData ==> PollIn in s.mask)
  }

  // ----- the flush loops -----

  lemma AdvanceConserves(queue: seq<Item>, count: nat)
    requires queue != [] && WellQueued(queue)
    ensures WellQueued(Advance(queue, count))
    ensures Chunk(queue[0], count) + Pending(Advance(queue, count)) == Pending(queue)
  {
    var head, rest := queue[0], queue[1..];
    assert Advance(queue, count)[1..] == rest;
    var stop := Offset(head, count);
    assert head.buffer[head.offset..stop] + head.buffer[stop..] == head.buffer[head.offset..];
    AppendAssociates(Chunk(head, count), head.buffer[stop..], Pending(rest));
  }

  /** No byte is lost, repeated or reordered by a flush, whatever `send` answers,
      and only the head of the remaining queue can be partly sent. */
  lemma {:induction false} DrainConserves(queue: seq<Item>, sends: seq<SendOutcome>)
    requires WellQueued(queue)
    ensures var r := Drain(queue, sends);
            WellQueued(r.queue) && r.sent + Pending(r.queue) == Pending(queue)
    decreases |sends| + |queue|
  {
    if queue != [] {
      var head := queue[0];
      if |head.buffer| <= head.offset {
        DrainConserves(queue[1..], sends);
      } else if sends != [] && sends[0].Sent? && sends[0].count > 0 {
        AdvanceConserves(queue, sends[0].count);
        DrainConserves(Advance(queue, sends[0].count), sends[1..]);
        var rest := Drain(Advance(queue, sends[0].count), sends[1..]);
        AppendAssociates(Chunk(head, sends[0].count), rest.sent, Pending(rest.queue));
      }
    }
  }

  /** A kernel that always takes something empties the queue after at most as
      many calls as there are bytes. */
  lemma {:induction false} DrainCompletes(queue: seq<Item>, sends: seq<SendOutcome>)
    requires WellQueued(queue)
    requires |Pending(queue)| <= |sends|
    requires forall k | 0 <= k < |sends| :: sends[k].Sent? && sends[k].count > 0
    ensures Drain(queue, sends).queue == [] && !Drain(queue, sends).failed
    ensures Drain(queue, sends).sent == Pending(queue)
    decreases |sends| + |queue|
  {
    DrainConserves(queue, sends);
    if queue != [] {
      var head := queue[0];
      if |head.buffer| <= head.offset {
        DrainCompletes(queue[1..], sends);
      } else {
        AdvanceConserves(queue, sends[0].count);
        DrainCompletes(Advance(queue, sends[0].count), sends[1..]);
      }
    }
  }

  /** The numbers of bytes the items of a queue still have to hand over. */
  function Lengths(queue: seq<Item>): seq<nat> {
    if queue == [] then [] else [|Unsent(queue[0])|] + Lengths(queue[1..])
  }

  /** How many bytes the kernel takes when it is offered blocks of these lengths
      one after the other and answers so: the sum of its counts, none above what
      it was offered, up to the first answer that takes nothing. */
  function Took(lengths: seq<nat>, sends: seq<SendOutcome>): nat
    decreases |lengths| + |sends|
  {
    if lengths == [] then 0
    else if lengths[0] == 0 then Took(lengths[1..], sends)
    else if sends == [] || !sends[0].Sent? || sends[0].count == 0 then 0
    else
      var n := if sends[0].count < lengths[0] then sends[0].count else lengths[0];
      n + Took([lengths[0] - n] + lengths[1..], sends[1..])
  }

  /** Where one successful `send` leaves the head of the queue. */
  lemma AdvanceTakes(queue: seq<Item>, count: nat)
    requires queue != [] && WellQueued(queue)
    ensures var length := |Unsent(queue[0])|;
            var n := if count < length then count else length;
            && Chunk(queue[0], count) == Unsent(queue[0])[..n]
            && Lengths(Advance(queue, count)) == [length - n] + Lengths(queue[1..])
  {
    assert Advance(queue, count)[1..] == queue[1..];
  }

  /** What a flush hands over and leaves, told by the counts alone. */
  ghost predicate Takes(queue: seq<Item>, sends: seq<SendOutcome>) {
    var n, r := Took(Lengths(queue), sends), Drain(queue, sends);
    && n <= |Pending(queue)|
    && r.sent == Pending(queue)[..n]
    && Pending(r.queue) == Pending(queue)[n..]
    && (r.queue != [] ==> Unsent(r.queue[0]) != [])
  }

  /** A finished item is passed over. */
  lemma FinishedTakes(queue: seq<Item>, sends: seq<SendOutcome>)
    requires queue != [] && |queue[0].buffer| <= queue[0].offset && Takes(queue[1..], sends)
    ensures Takes(queue, sends)
  {
    assert Lengths(queue)[1..] == Lengths(queue[1..]);
    assert Pending(queue) == Pending(queue[1..]);
  }

  lemma StopTakes(queue: seq<Item>, sends: seq<SendOutcome>)
    requires queue != [] && queue[0].offset < |queue[0].buffer|
    requires sends == [] || !sends[0].Sent? || sends[0].count == 0
    ensures Takes(queue, sends)
  {
    assert Took(Lengths(queue), sends) == 0;
  }

  lemma CountTakes(queue: seq<Item>, sends: seq<SendOutcome>)
    requires queue != [] && WellQueued(queue) && queue[0].offset < |queue[0].buffer|
    requires sends != [] && sends[0].Sent? && sends[0].count > 0
    requires Takes(Advance(queue, sends[0].count), sends[1..])
    ensures Takes(queue, sends)
  {
    hide Took, Lengths, Drain, Advance, Chunk, Pending, WellQueued;
    var next := Advance(queue, sends[0].count);
    AdvanceTakes(queue, sends[0].count);
    AdvanceConserves(queue, sends[0].count);
    LengthsFirst(queue);
    TookCount(Lengths(queue), sends);
    DrainCount(queue, sends);
    TakesMore(Chunk(queue[0], sends[0].count), Pending(next), Took(Lengths(next), sends[1..]));
  }

  lemma LengthsFirst(queue: seq<Item>)
    requires queue != []
    ensures Lengths(queue) == [|Unsent(queue[0])|] + Lengths(queue[1..])
    ensures Lengths(queue)[0] == |Unsent(queue[0])| && Lengths(queue)[1..] == Lengths(queue[1..])
  {
  }

  lemma {:induction false} TookCount(lengths: seq<nat>, sends: seq<SendOutcome>)
    requires lengths != [] && lengths[0] > 0 && sends != [] && sends[0].Sent? && sends[0].count > 0
    ensures var n := if sends[0].count < lengths[0] then sends[0].count else lengths[0];
            Took(lengths, sends) == n + Took([lengths[0] - n] + lengths[1..], sends[1..])
  {
  }

  lemma {:induction false} DrainCount(queue: seq<Item>, sends: seq<SendOutcome>)
    requires queue != [] && queue[0].offset < |queue[0].buffer|
    requires sends != [] && sends[0].Sent? && sends[0].count > 0
    ensures Drain(queue, sends) ==
            AfterSending(Chunk(queue[0], sends[0].count), Drain(Advance(queue, sends[0].count), sends[1..]))
  {
  }

  /** A flush hands over exactly the bytes the kernel's counts say, from the front
      of what is pending, and leaves no finished item at the head. */
  lemma DrainTakes(queue: seq<Item>, sends: seq<SendOutcome>)
    requires WellQueued(queue)
    ensures var n := Took(Lengths(queue), sends);
            var r := Drain(queue, sends);
            && n <= |Pending(queue)|
            && r.sent == Pending(queue)[..n]
            && Pending(r.queue) == Pending(queue)[n..]
            && (r.queue != [] ==> Unsent(r.queue[0]) != [])
  {
    TakesAll(queue, sends);
  }

  lemma {:induction false} TakesAll(queue: seq<Item>, sends: seq<SendOutcome>)
    requires WellQueued(queue)
    ensures Takes(queue, sends)
    decreases |sends| + |queue|
  {
    if queue == [] {
    } else if |queue[0].buffer| <= queue[0].offset {
      hide Takes;
      TakesAll(queue[1..], sends);
      FinishedTakes(queue, sends);
    } else if sends != [] && sends[0].Sent? && sends[0].count > 0 {
      hide Takes;
      AdvanceConserves(queue, sends[0].count);
      TakesAll(Advance(queue, sends[0].count), sends[1..]);
      CountTakes(queue, sends);
    } else {
      hide Takes;
      StopTakes(queue, sends);
    }
  }

  lemma TakesMore(chunk: Bytes, rest: Bytes, n: nat)
    requires n <= |rest|
    ensures chunk + rest[..n] == (chunk + rest)[..|chunk| + n]
    ensures rest[n..] == (chunk + rest)[|chunk| + n..]
  {
  }

  /** Answer `k` of the kernel is an error, all answers before it took something,
      and bytes were left then. */
  ghost predicate RefusedAt(queue: seq<Item>, sends: seq<SendOutcome>, k: nat)
    requires k < |sends|
  {
    && sends[k].Failed?
    && (forall j | 0 <= j < k :: sends[j].Sent? && sends[j].count > 0)
    && Took(Lengths(queue), sends[..k]) < |Pending(queue)|
  }

  /** The kernel refuses with an error before it has taken every byte. */
  ghost predicate Refused(queue: seq<Item>, sends: seq<SendOutcome>) {
    exists k | 0 <= k < |sends| :: RefusedAt(queue, sends, k)
  }

  /** A flush fails exactly when the kernel answers an error while bytes are
      left: no error before that, and none that comes once a would-block, a
      zero or the end of the queue has stopped the loops, counts. */
  lemma {:induction false} DrainFailsExact(queue: seq<Item>, sends: seq<SendOutcome>)
    requires WellQueued(queue)
    ensures Drain(queue, sends).failed <==> Refused(queue, sends)
    decreases |sends| + |queue|
  {
    if queue != [] && |queue[0].buffer| <= queue[0].offset {
      DrainFailsExact(queue[1..], sends);
      assert Lengths(queue)[1..] == Lengths(queue[1..]);
      assert forall k | 0 <= k < |sends| :: RefusedAt(queue, sends, k) <==> RefusedAt(queue[1..], sends, k);
    } else if queue != [] && sends != [] && sends[0].Failed? {
      assert sends[..0] == [];
      assert Pending(queue) == Unsent(queue[0]) + Pending(queue[1..]);
      assert RefusedAt(queue, sends, 0);
    } else if queue != [] && sends != [] && sends[0].Sent? && sends[0].count > 0 {
      AdvanceConserves(queue, sends[0].count);
      DrainFailsExact(Advance(queue, sends[0].count), sends[1..]);
      forall k | 0 < k < |sends|
        ensures RefusedAt(queue, sends, k) <==> RefusedAt(Advance(queue, sends[0].count), sends[1..], k - 1)
      {
        RefusedLater(queue, sends, k);
      }
      if Refused(Advance(queue, sends[0].count), sends[1..]) {
        var k :| 0 <= k < |sends[1..]| && RefusedAt(Advance(queue, sends[0].count), sends[1..], k);
        assert RefusedAt(queue, sends, k + 1);
      }
    }
  }

  lemma RefusedLater(queue: seq<Item>, sends: seq<SendOutcome>, k: nat)
    requires queue != [] && WellQueued(queue) && queue[0].offset < |queue[0].buffer|
    requires 0 < k < |sends| && sends[0].Sent? && sends[0].count > 0
    ensures RefusedAt(queue, sends, k) <==> RefusedAt(Advance(queue, sends[0].count), sends[1..], k - 1)
  {
    hide Took, Lengths, Pending, WellQueued, Advance, Chunk;
    var next := Advance(queue, sends[0].count);
    assert sends[..k][1..] == sends[1..][..k - 1];
    assert forall j | 0 < j < k :: sends[j] == sends[1..][j - 1];
    AdvanceTakes(queue, sends[0].count);
    AdvanceConserves(queue, sends[0].count);
    LengthsFirst(queue);
    TookCount(Lengths(queue), sends[..k]);
    assert |Pending(queue)| == |Chunk(queue[0], sends[0].count)| + |Pending(next)|;
  }

  lemma {:induction false} PendingSnoc(queue: seq<Item>, item: Item)
    ensures Pending(queue + [item]) == Pending(queue) + Unsent(item)
  {
    if queue == [] {
      assert Pending([item]) == Unsent(item) + Pending([item][1..]);
    } else {
      PendingSnoc(queue[1..], item);
      AppendAssociates(Unsent(queue[0]), Pending(queue[1..]), Unsent(item));
      assert (queue + [item])[1..] == queue[1..] + [item];
    }
  }

  /** A connected socket whose queue may just have grown. */
  ghost predicate Flushable(s: Sock) {
    && WellQueued(s.queue) && s.open && s.status == Connected
    && s.accepted + Pending(s.queue) == s.submitted
    && (s.wantsData ==> PollIn in s.mask)
  }

  lemma FlushKeepsOk(s: Sock, sends: seq<SendOutcome>)
    requires Flushable(s)
    ensures SockOk(Flush(s, sends))
    ensures Flush(s, sends).open ==> (PollOut in Flush(s, sends).mask <==> Flush(s, sends).queue != [])
  {
    hide Drain, WellQueued, Pending;
    DrainConserves(s.queue, sends);
    NothingQueued();
    var r := Drain(s.queue, sends);
    AppendAssociates(s.accepted, r.sent, Pending(r.queue));
  }

  lemma NothingQueued()
    ensures WellQueued([])
  {
  }

  lemma SendKeepsOk(s: Sock, data: Option<Bytes>, more: bool, sends: seq<SendOutcome>)
    requires SockOk(s)
    ensures SockOk(Send(s, data, more, sends))
    ensures Send(s, data, more, sends).submitted == s.submitted + (if data.Some? then data.value else [])
  {
    hide Pending, WellQueued, Drain;
    if data.Some? {
      QueuedOk(s, data.value);
    }
    var s1 := match data
      case Some(b) => s.(queue := s.queue + [Item(b, 0)], submitted := s.submitted + b)
      case None => s;
    var s2 := s1.(lastMore := more);
    if s2.status == Connected && !more {
      FlushKeepsOk(s2, sends);
    }
  }

  /** A buffer at the end of the queue. */
  lemma QueuedOk(s: Sock, data: Bytes)
    requires SockOk(s)
    ensures WellQueued(s.queue + [Item(data, 0)])
    ensures s.accepted <= s.submitted + data
    ensures s.open ==> s.accepted + Pending(s.queue + [Item(data, 0)]) == s.submitted + data
  {
    PendingSnoc(s.queue, Item(data, 0));
    AppendAssociates(s.accepted, Pending(s.queue), data);
  }

  lemma {:induction false} SendAllKeepsOk(s: Sock, buffers: seq<Bytes>)
    requires SockOk(s)
    ensures SockOk(SendAll(s, buffers))
    ensures SendAll(s, buffers).submitted == s.submitted + Concat(buffers)
    ensures SendAll(s, buffers).status == s.status
    decreases |buffers|
  {
    if buffers != [] {
      SendKeepsOk(s, Some(buffers[0]), true, []);
      SendAllKeepsOk(Send(s, Some(buffers[0]), true, []), buffers[1..]);
    }
  }

  lemma CloseKeepsOk(s: Sock)
    requires SockOk(s)
    ensures SockOk(Close(s)) && !Close(s).open
    ensures Close(s).status == Idle && Close(s).queue == []
    ensures Close(s).accepted == s.accepted && Close(s).submitted == s.submitted
  {
  }

  lemma WritableKeepsOk(s: Sock, error: int, sends: seq<SendOutcome>)
    requires SockOk(s)
    ensures SockOk(Writable(s, error, sends))
    ensures Writable(s, error, sends).submitted == s.submitted
    ensures s.status == Connected && Writable(s, error, sends).open ==>
              (PollOut in Writable(s, error, sends).mask <==> Writable(s, error, sends).queue != [])
  {
    if s.status == Connected {
      FlushKeepsOk(s, sends);
    }
  }

  lemma UnwantedKeepsOk(s: Sock)
    requires SockOk(s)
    ensures SockOk(Unwanted(s)) && Unwanted(s).submitted == s.submitted
    ensures s.status == Connected && !s.wantsData ==> PollIn !in Unwanted(s).mask
    ensures PollIn !in s.mask || s.wantsData ==> Unwanted(s) == s
  {
  }

  lemma ReceiveKeepsOk(s: Sock, outcome: RecvOutcome)
    requires SockOk(s)
    ensures SockOk(Receive(s, outcome)) && Receive(s, outcome).submitted == s.submitted
    ensures var arrived := outcome.Data? && outcome.bytes != [];
            if arrived || outcome.NoData? then Receive(s, outcome) == s else !Receive(s, outcome).open
  {
    CloseKeepsOk(s);
  }

  lemma WantDataKeepsOk(s: Sock, wants: bool)
    requires SockOk(s)
    ensures SockOk(WantData(s, wants)) && WantData(s, wants).submitted == s.submitted
    ensures WantData(s, wants).wantsData == wants
    ensures s.status == Connected && wants ==> PollIn in WantData(s, wants).mask
    ensures WantData(s, wants).accepted == s.accepted && WantData(s, wants).queue == s.queue
  {
  }

  // ----- what reaches the kernel, operation by operation -----

  /** A flush of an open socket: the kernel gets what its counts say; an error
      while bytes are left closes the socket; otherwise the rest stays queued, and
      nothing else about the socket changes but its wish to write. */
  lemma FlushExact(s: Sock, sends: seq<SendOutcome>)
    requires WellQueued(s.queue) && s.open
    ensures var t, n := Flush(s, sends), Took(Lengths(s.queue), sends);
            && n <= |Pending(s.queue)| && t.accepted == s.accepted + Pending(s.queue)[..n]
            && t.submitted == s.submitted && t.wantsData == s.wantsData && t.lastMore == s.lastMore
            && (t.open <==> !Refused(s.queue, sends))
            && (t.open ==> Pending(t.queue) == Pending(s.queue)[n..] && t.status == s.status)
            && (t.open ==> (PollIn in t.mask <==> PollIn in s.mask) && (PollOut in t.mask <==> Pending(t.queue) != []))
            && (!t.open ==> t.status == Idle && t.queue == [])
  {
    hide Drain, Refused, Took, Lengths;
    DrainTakes(s.queue, sends);
    DrainFailsExact(s.queue, sends);
  }

  lemma LengthsSnoc(queue: seq<Item>, data: Bytes)
    ensures Lengths(queue + [Item(data, 0)]) == Lengths(queue) + [|data|]
  {
    if queue == [] {
      assert [] + [Item(data, 0)] == [Item(data, 0)];
      assert Lengths([Item(data, 0)]) == [|data|] + Lengths([Item(data, 0)][1..]);
    } else {
      LengthsSnoc(queue[1..], data);
      assert (queue + [Item(data, 0)])[1..] == queue[1..] + [Item(data, 0)];
    }
  }

  /** `sock_send` offers the kernel everything pending, its own bytes last, when
      the socket is connected and no more is announced, and nothing otherwise. */
  lemma SendExact(s: Sock, data: Option<Bytes>, more: bool, sends: seq<SendOutcome>)
    requires SockOk(s)
    ensures var t := Send(s, data, more, sends);
            var lengths := Lengths(s.queue) + if data.Some? then [|data.value|] else [];
            var pending := Pending(s.queue) + if data.Some? then data.value else [];
            && t.lastMore == more && t.wantsData == s.wantsData
            && (if s.status == Connected && !more
                then Took(lengths, sends) <= |pending| && t.accepted == s.accepted + pending[..Took(lengths, sends)]
                else t.accepted == s.accepted && t.status == s.status && t.open == s.open && t.mask == s.mask &&
                     Lengths(t.queue) == lengths && Pending(t.queue) == pending)
  {
    hide Drain, Refused, Took, Lengths, Pending, Flush;
    if data.Some? {
      QueuedOk(s, data.value);
      LengthsSnoc(s.queue, data.value);
      PendingSnoc(s.queue, Item(data.value, 0));
    } else {
      assert Lengths(s.queue) + [] == Lengths(s.queue) && Pending(s.queue) + [] == Pending(s.queue);
    }
    var s1 := match data
      case Some(b) => s.(queue := s.queue + [Item(b, 0)], submitted := s.submitted + b)
      case None => s;
    if s.status == Connected && !more {
      FlushExact(s1.(lastMore := more), sends);
    }
  }

  /** Readiness for writing finishes a connect, one way or the other, and flushes
      a connected socket. */
  lemma WritableExact(s: Sock, error: int, sends: seq<SendOutcome>)
    requires SockOk(s)
    ensures var t := Writable(s, error, sends);
            && t.wantsData == s.wantsData && t.lastMore == s.lastMore
            && (s.status == Connecting ==>
                 t.status == (if error == 0 then Connected else Idle) && t.accepted == s.accepted &&
                 t.queue == s.queue && t.open == s.open)
            && (s.status == Connected ==>
                 var n := Took(Lengths(s.queue), sends);
                 n <= |Pending(s.queue)| && t.accepted == s.accepted + Pending(s.queue)[..n])
            && (s.status == Idle ==> t == s)
  {
    hide Took, Lengths, Pending, Flush, Refused;
    if s.status == Connected {
      FlushExact(s, sends);
    }
  }

  // ----- whole runs of one socket -----

  datatype Op =
    | Submit(data: Option<Bytes>, more: bool, sends: seq<SendOutcome>)
    | OnWritable(error: int, sends: seq<SendOutcome>)
    | OnReadable
    | Recv(outcome: RecvOutcome)
    | SetDataCallback(wants: bool)
    | CloseSocket

  function Apply(s: Sock, op: Op): Sock {
    match op
    case Submit(data, more, sends) => Send(s, data, more, sends)
    case OnWritable(error, sends) => Writable(s, error, sends)
    case OnReadable => Unwanted(s)
    case Recv(outcome) => Receive(s, outcome)
    case SetDataCallback(wants) => WantData(s, wants)
    case CloseSocket => Close(s)
  }

  function RunSock(s: Sock, ops: seq<Op>): Sock
    decreases |ops|
  {
    if ops == [] then s else RunSock(Apply(s, ops[0]), ops[1..])
  }

  /** The bytes a run hands to `sock_send`, in order. */
  function DataOf(ops: seq<Op>): Bytes {
    if ops == [] then []
    else (if ops[0].Submit? && ops[0].data.Some? then ops[0].data.value else []) + DataOf(ops[1..])
  }

  lemma ApplyKeepsOk(s: Sock, op: Op)
    requires SockOk(s)
    ensures SockOk(Apply(s, op))
    ensures Apply(s, op).submitted == s.submitted + DataOf([op])
  {
    assert DataOf([op][1..]) == [];
    match op
    case Submit(data, more, sends) => SendKeepsOk(s, data, more, sends);
    case OnWritable(error, sends) => WritableKeepsOk(s, error, sends);
    case OnReadable => UnwantedKeepsOk(s);
    case Recv(outcome) => ReceiveKeepsOk(s, outcome);
    case SetDataCallback(wants) => WantDataKeepsOk(s, wants);
    case CloseSocket => CloseKeepsOk(s);
  }

  lemma {:induction false} RunKeepsOk(s: Sock, ops: seq<Op>)
    requires SockOk(s)
    ensures SockOk(RunSock(s, ops))
    ensures RunSock(s, ops).submitted == s.submitted + DataOf(ops)
    decreases |ops|
  {
    hide SockOk, Apply, DataOf;
    if ops == [] {
      NoData();
    } else {
      ApplyKeepsOk(s, ops[0]);
      RunKeepsOk(Apply(s, ops[0]), ops[1..]);
      DataSplits(ops);
      AppendAssociates(s.submitted, DataOf([ops[0]]), DataOf(ops[1..]));
    }
  }

  lemma NoData()
    ensures DataOf([]) == []
  {
  }

  lemma DataSplits(ops: seq<Op>)
    requires ops != []
    ensures DataOf(ops) == DataOf([ops[0]]) + DataOf(ops[1..])
  {
    assert DataOf([ops[0]][1..]) == [];
  }

  /** Whatever the kernel answers and whatever the owner does, the bytes it has
      accepted are a prefix of the bytes submitted; while the descriptor is open
      the queue holds exactly the rest; and queued data of a connected socket is
      never stranded without a request for writability. */
  lemma RunDelivers(ops: seq<Op>, dialled: bool)
    ensures var s := RunSock(if dialled then Dialled() else Accepted(), ops);
            && s.accepted <= DataOf(ops)
            && (s.open ==> s.accepted + Pending(s.queue) == DataOf(ops))
            && (s.status == Connected && s.queue != [] && !s.lastMore ==> PollOut in s.mask)
  {
    RunKeepsOk(if dialled then Dialled() else Accepted(), ops);
  }
}
