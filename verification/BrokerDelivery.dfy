/** Stanza delivery over whole runs: what the XMPP server sent reaches the HTTP
    client exactly once and in order.  The other direction, one unbroken stream
    on the XMPP socket, is in `BrokerSockets`. */
module BrokerDelivery {
  import opened Common
  import opened SocketModel
  import opened BrokerModel
  import opened BrokerInvariant
  import opened BrokerPairing
  import opened BrokerSockets

  function StanzasOf(o: Out, u: Uid): seq<Stanza> {
    if o.Answer? && o.owner == Some(u) && o.body.Messages? then o.body.stanzas else []
  }

  /** The stanzas in all bodies sent to the client of session `u`. */
  function Delivered(out: seq<Out>, u: Uid): seq<Stanza> {
    if out == [] then []
    else Delivered(out[..|out| - 1], u) + StanzasOf(out[|out| - 1], u)
  }

  function NormalStanzas(items: seq<StanzaEvent>): seq<Stanza> {
    if items == [] then []
    else (if items[0].Normal? then [items[0].stanza] else []) + NormalStanzas(items[1..])
  }

  function ReceivedIn(e: Event, u: Uid): seq<Stanza> {
    if e.XmppData? && e.uid == u then NormalStanzas(e.items) else []
  }

  /** The normal stanzas the XMPP server sent to session `u`. */
  function Received(events: seq<Timed>, u: Uid): seq<Stanza> {
    if events == [] then []
    else Received(events[..|events| - 1], u) + ReceivedIn(events[|events| - 1].event, u)
  }

  function QueueOf(st: State, u: Uid): seq<Stanza>
    requires Live(st, u)
  {
    st.sessions[IndexOfUid(st.sessions, u)].queue
  }

  /** From `st` to `st'` session `u`, if it survives, takes in `stanzas` from the
      server; if it ends, its client was sent some of what was queued or came in,
      in order; once it is over, its client is sent nothing. */
  ghost predicate Carries(st: State, st': State, u: Uid, stanzas: seq<Stanza>) {
    && st.nextUid == st'.nextUid
    && (Live(st', u) ==>
         Live(st, u) &&
         Delivered(st'.out, u) + QueueOf(st', u) == Delivered(st.out, u) + QueueOf(st, u) + stanzas)
    && (Live(st, u) && !Live(st', u) ==>
         Delivered(st'.out, u) <= Delivered(st.out, u) + QueueOf(st, u) + stanzas)
    && (!Live(st, u) ==> Delivered(st'.out, u) == Delivered(st.out, u))
  }

  lemma Refl(st: State, u: Uid)
    ensures Carries(st, st, u, [])
  {
  }

  lemma Trans(a: State, b: State, c: State, u: Uid, stanzas1: seq<Stanza>, stanzas2: seq<Stanza>)
    requires Carries(a, b, u, stanzas1) && Carries(b, c, u, stanzas2)
    ensures Carries(a, c, u, stanzas1 + stanzas2)
  {
    if Live(a, u) {
      AppendAssociates(Delivered(a.out, u) + QueueOf(a, u), stanzas1, stanzas2);
    }
  }

  lemma TransSilent(a: State, b: State, c: State, u: Uid, stanzas: seq<Stanza>)
    requires Carries(a, b, u, stanzas) && Carries(b, c, u, [])
    ensures Carries(a, c, u, stanzas)
  {
    Trans(a, b, c, u, stanzas, []);
    assert stanzas + [] == stanzas;
  }

  // ----- the pieces -----

  lemma PutCarries(st: State, i: nat, s: Session, u: Uid, stanzas: seq<Stanza>)
    requires i < |st.sessions| && s.uid == st.sessions[i].uid && Distinct(st.sessions)
    requires s.queue == st.sessions[i].queue + stanzas
    ensures Carries(st, Put(st, i, s), u, if u == s.uid then stanzas else [])
  {
    IndexAfterPut(st.sessions, i, s, u);
    if Live(st, u) {
      var j := IndexOfUid(st.sessions, u);
      if j == i {
        AppendAssociates(Delivered(st.out, u), st.sessions[i].queue, stanzas);
      }
      IndexIs(st.sessions, i);
    }
  }

  lemma DeliveredSnoc(out: seq<Out>, o: Out, u: Uid)
    ensures Delivered(out + [o], u) == Delivered(out, u) + StanzasOf(o, u)
  {
    assert (out + [o])[..|out|] == out;
  }

  lemma AnswerCarries(st: State, conn: Conn, body: Body, u: Uid)
    ensures Carries(st, AnswerOn(st, conn, body, None), u, [])
  {
    DeliveredSnoc(st.out, Answer(conn, body, None), u);
  }

  /** Answering for session `i` with the front of its queue, or with no stanza. */
  lemma ReleaseCarries(st: State, i: nat, s: Session, conn: Conn, body: Body, u: Uid)
    requires i < |st.sessions| && Distinct(st.sessions) && s.uid == st.sessions[i].uid
    requires (if body.Messages? then body.stanzas else []) + s.queue == st.sessions[i].queue
    ensures Carries(st, AnswerOn(Put(st, i, s), conn, body, Some(s.uid)), u, [])
  {
    hide Delivered;
    IndexAfterPut(st.sessions, i, s, u);
    IndexIs(st.sessions, i);
    var stanzas := if body.Messages? then body.stanzas else [];
    DeliveredSnoc(st.out, Answer(conn, body, Some(s.uid)), u);
    AppendAssociates(Delivered(st.out, u), stanzas, s.queue);
  }

  lemma FlushCarries(st: State, i: nat, now: int, u: Uid)
    requires i < |st.sessions| && Distinct(st.sessions)
    ensures Carries(st, FlushMessages(st, i, now), u, [])
  {
    hide Carries;
    var s := st.sessions[i];
    if s.conn.Some? && s.queue != [] {
      assert s.queue + [] == s.queue;
      ReleaseCarries(st, i, s.(queue := [], conn := None, timestamp := now), s.conn.value,
                     Messages(s.queue, Concat(s.queue)), u);
    } else {
      Refl(st, u);
    }
  }

  lemma DropCarries(st: State, i: nat, terminate: bool, now: int, u: Uid)
    requires i < |st.sessions| && Distinct(st.sessions) && st.sessions[i].conn.Some?
    ensures Carries(st, DropRequest(st, i, terminate, now), u, [])
  {
    hide Carries;
    var s := st.sessions[i];
    assert [] + s.queue == s.queue;
    ReleaseCarries(st, i, s.(conn := None, timestamp := now), s.conn.value, if terminate then Terminate else Empty, u);
  }

  lemma RemoveCarries(st: State, i: nat, u: Uid)
    requires i < |st.sessions| && Distinct(st.sessions)
    ensures Carries(st, Remove(st, i), u, [])
    ensures !Live(Remove(st, i), st.sessions[i].uid)
  {
    DistinctAfterRemove(st.sessions, i);
    if u != st.sessions[i].uid {
      IndexAfterRemove(st.sessions, i, u);
    }
  }

  lemma CloseCarries(st: State, i: nat, now: int, u: Uid)
    requires i < |st.sessions| && Inv(st)
    ensures Carries(st, CloseClient(st, i, now), u, [])
    ensures !Live(CloseClient(st, i, now), st.sessions[i].uid)
  {
    if st.sessions[i].conn.Some? {
      DropCarries(st, i, true, now, u);
      DropKeeps(st, i, true, now);
      RemoveCarries(DropRequest(st, i, true, now), i, u);
      TransSilent(st, DropRequest(st, i, true, now), CloseClient(st, i, now), u, []);
    } else {
      RemoveCarries(st, i, u);
    }
  }

  lemma HoldCarries(st: State, i: nat, conn: Conn, now: int, u: Uid)
    requires i < |st.sessions| && Distinct(st.sessions)
    ensures Carries(st, Hold(st, i, conn, now), u, [])
  {
    IndexAfterPut(st.sessions, i, st.sessions[i].(conn := Some(conn), timestamp := now), u);
  }

  lemma SetHttpCarries(st: State, i: nat, conn: Conn, now: int, u: Uid)
    requires i < |st.sessions| && Inv(st)
    ensures Carries(st, SetHttp(st, i, conn, now), u, [])
  {
    var st1 := if st.sessions[i].conn.Some? then DropRequest(st, i, false, now) else st;
    if st.sessions[i].conn.Some? {
      DropCarries(st, i, false, now, u);
      DropKeeps(st, i, false, now);
    } else {
      Refl(st, u);
    }
    var st2 := Hold(st1, i, conn, now);
    HoldCarries(st1, i, conn, now, u);
    TransSilent(st, st1, st2, u, []);
    HoldKeeps(st1, i, conn, now);
    FlushCarries(st2, i, now, u);
    TransSilent(st, st2, FlushMessages(st2, i, now), u, []);
  }

  lemma SendStanzasCarries(st: State, i: nat, stanzas: seq<Stanza>, sends: seq<SendOutcome>, u: Uid)
    requires i < |st.sessions| && Inv(st)
    ensures Carries(st, SendStanzas(st, i, stanzas, sends), u, [])
  {
    hide Send, SendAll;
    var s := st.sessions[i];
    var s' := s.(sock := Send(SendAll(s.sock, stanzas), None, false, sends));
    assert s'.queue == s.queue + [];
    PutCarries(st, i, s', u, []);
  }

  lemma PollCarries(st: State, i: nat, conn: Conn, m: Message, sends: seq<SendOutcome>, now: int, u: Uid)
    requires i < |st.sessions| && Inv(st)
    ensures Carries(st, PollSession(st, i, conn, m, sends, now), u, [])
  {
    hide SetHttp, SendStanzas, CloseClient;
    var st1 := SetHttp(st, i, conn, now);
    SetHttpCarries(st, i, conn, now, u);
    SetHttpKeeps(st, i, conn, now);
    var st2 := SendStanzas(st1, i, m.stanzas, sends);
    SendStanzasCarries(st1, i, m.stanzas, sends, u);
    SendStanzasKeeps(st1, i, m.stanzas, sends);
    TransSilent(st, st1, st2, u, []);
    if m.terminate {
      CloseCarries(st2, i, now, u);
      TransSilent(st, st2, CloseClient(st2, i, now), u, []);
    }
  }

  lemma {:induction false} HandleStanzasQueues(s: Session, items: seq<StanzaEvent>)
    ensures HandleStanzas(s, items).queue == s.queue + NormalStanzas(items)
    decreases |items|
  {
    if items != [] {
      HandleStanzasQueues(HandleStanza(s, items[0]), items[1..]);
    }
  }

  lemma ReadCarries(st: State, i: nat, items: seq<StanzaEvent>, end: ReadEnd, now: int, u: Uid)
    requires i < |st.sessions| && Inv(st)
    ensures Carries(st, ReadJabber(st, i, items, end, now), u,
                    if u == st.sessions[i].uid then NormalStanzas(items) else [])
  {
    hide FlushMessages, CloseClient;
    var s := AfterRead(st.sessions[i], items, end);
    StanzasKeepNames(st.sessions[i], items);
    HandleStanzasQueues(st.sessions[i], items);
    var taken := if u == st.sessions[i].uid then NormalStanzas(items) else [];
    PutCarries(st, i, s, u, NormalStanzas(items));
    CloseKeepsOk(st.sessions[i].sock);
    PutKeeps(st, i, s);
    var st1 := Put(st, i, s);
    var st2 := FlushMessages(st1, i, now);
    FlushCarries(st1, i, now, u);
    FlushKeeps(st1, i, now);
    TransSilent(st, st1, st2, u, taken);
    CloseCarries(st2, i, now, u);
    TransSilent(st, st2, CloseClient(st2, i, now), u, taken);
  }

  lemma ReadyCarries(st: State, i: nat, error: int, sends: seq<SendOutcome>, now: int, u: Uid)
    requires i < |st.sessions| && Inv(st)
    ensures Carries(st, XmppReady(st, i, error, sends, now), u, [])
  {
    hide Writable, CloseClient;
    var s := st.sessions[i];
    WritableKeepsOk(s.sock, error, sends);
    var s' := s.(sock := Writable(s.sock, error, sends));
    assert s'.queue == s.queue + [];
    PutCarries(st, i, s', u, []);
    PutKeeps(st, i, s');
    CloseCarries(Put(st, i, s'), i, now, u);
    TransSilent(st, Put(st, i, s'), CloseClient(Put(st, i, s'), i, now), u, []);
  }

  lemma ClearCarries(st: State, conn: Conn, now: int, u: Uid)
    requires Inv(st)
    ensures Carries(st, ClearHttp(st, conn, now), u, [])
  {
    if conn in st.callbacks {
      var i, s := ClearIs(st, conn, now);
      hide ClearHttp, SockOk;
      assert s.queue == st.sessions[i].queue + [];
      PutCarries(st, i, s, u, []);
      LostCarries(Put(st, i, s), conn, st.callbacks[conn], u);
      TransSilent(st, Put(st, i, s), ClearHttp(st, conn, now), u, []);
    } else {
      Refl(st, u);
    }
  }

  lemma LostCarries(st: State, conn: Conn, owner: Uid, u: Uid)
    ensures Carries(st, st.(callbacks := st.callbacks - {conn}, out := st.out + [Lost(conn, Some(owner))]), u, [])
  {
    DeliveredSnoc(st.out, Lost(conn, Some(owner)), u);
  }

  lemma {:induction false} DropDueCarries(st: State, k: nat, now: int, u: Uid)
    requires k <= |st.sessions| && Inv(st)
    ensures Carries(st, DropDue(st, k, now), u, [])
    decreases |st.sessions| - k
  {
    hide Carries, SockOk, DropRequest;
    if k == |st.sessions| {
      Refl(st, u);
    } else if RequestDue(st.sessions[k], now) {
      DropCarries(st, k, false, now, u);
      DropKeeps(st, k, false, now);
      DropDueCarries(DropRequest(st, k, false, now), k + 1, now, u);
      TransSilent(st, DropRequest(st, k, false, now), DropDue(st, k, now), u, []);
    } else {
      DropDueCarries(st, k + 1, now, u);
    }
  }

  lemma {:induction false} CloseAllCarries(st: State, uids: seq<Uid>, now: int, u: Uid)
    requires Inv(st)
    ensures Carries(st, CloseAll(st, uids, now), u, [])
    decreases |uids|
  {
    hide Carries, Inv, CloseClient;
    if uids == [] {
      Refl(st, u);
    } else {
      var i := IndexOfUid(st.sessions, uids[0]);
      if i < |st.sessions| {
        CloseCarries(st, i, now, u);
        CloseKeeps(st, i, now);
        CloseAllCarries(CloseClient(st, i, now), uids[1..], now, u);
        TransSilent(st, CloseClient(st, i, now), CloseAll(st, uids, now), u, []);
      } else {
        CloseAllCarries(st, uids[1..], now, u);
      }
    }
  }

  lemma TickCarries(st: State, now: int, u: Uid)
    requires Inv(st)
    ensures Carries(st, CheckTimeout(st, now), u, [])
  {
    hide Carries, Inv, DropDue, CloseAll;
    var st1 := DropDue(st, 0, now);
    DropDueCarries(st, 0, now, u);
    DropDueKeeps(st, 0, now);
    CloseAllCarries(st1, ToClose(st.sessions, st.timeout, now), now, u);
    TransSilent(st, st1, CheckTimeout(st, now), u, []);
  }

  lemma RequestCarries(st: State, e: Event, now: int, u: Uid)
    requires Inv(st) && Enabled(st, e) && e.HttpRequest? && !Creates(e.request, e.env)
    ensures Carries(st, Step(st, e, now), u, ReceivedIn(e, u))
  {
    hide PollSession, AddSession, Carries, Inv, AnswerOn;
    var t := Target(st, e.request);
    if t < |st.sessions| {
      PollCarries(st, t, e.conn, e.request.message.value, e.env.sends, now, u);
    } else {
      AnswerCarries(st, e.conn, StatusPage(st.count, st.maxCount), u);
      AnswerCarries(st, e.conn, Error(BadFormat), u);
      AnswerCarries(st, e.conn, Error(SidNotFound), u);
      AnswerCarries(st, e.conn, Error(ConnectionFailed), u);
    }
  }

  /** A handler that creates no session. */
  lemma StepCarries(st: State, e: Event, now: int, u: Uid)
    requires Inv(st) && Enabled(st, e)
    requires !(e.HttpRequest? && Creates(e.request, e.env))
    ensures Carries(st, Step(st, e, now), u, ReceivedIn(e, u))
  {
    hide HandleRequest, ClearHttp, ReadJabber, XmppReady, CloseClient, CheckTimeout, Carries;
    match e
    case HttpRequest(_, _, _) => RequestCarries(st, e, now, u);
    case HttpClosed(conn) => ClearCarries(st, conn, now, u);
    case XmppData(v, items, end) => ReadCarries(st, IndexOfUid(st.sessions, v), items, end, now, u);
    case XmppWritable(v, error, sends) => ReadyCarries(st, IndexOfUid(st.sessions, v), error, sends, now, u);
    case XmppError(v) => CloseCarries(st, IndexOfUid(st.sessions, v), now, u);
    case Tick => TickCarries(st, now, u);
  }

  lemma AddOld(st: State, sid: nat, wait: int, host: Bytes, now: int, u: Uid)
    requires Numbered(st) && u != st.nextUid
    ensures Carries(st.(nextUid := st.nextUid + 1), AddSession(st, sid, wait, host, now), u, [])
  {
    hide NewSock;
    IndexAfterAppend(st.sessions, Session(st.nextUid, sid, None, [], true, now, wait, NewSock(host)), u);
  }

  lemma AddNew(st: State, sid: nat, wait: int, host: Bytes, now: int)
    requires Numbered(st)
    ensures var st' := AddSession(st, sid, wait, host, now);
            Live(st', st.nextUid) && QueueOf(st', st.nextUid) == []
  {
    hide NewSock;
    IndexAfterAppend(st.sessions, Session(st.nextUid, sid, None, [], true, now, wait, NewSock(host)), st.nextUid);
  }

  /** The handler that creates session `st.nextUid` and touches no other. */
  lemma CreateCarries(st: State, e: Event, now: int, u: Uid)
    requires Inv(st) && e.HttpRequest? && Creates(e.request, e.env)
    ensures Step(st, e, now).nextUid == st.nextUid + 1
    ensures u != st.nextUid ==>
              Carries(st.(nextUid := st.nextUid + 1), Step(st, e, now), u, ReceivedIn(e, u))
    ensures u == st.nextUid ==>
              var st' := Step(st, e, now);
              && Live(st', u) && QueueOf(st', u) == [] && Delivered(st'.out, u) == Delivered(st.out, u)
              && Own(st', u) == NewSock(e.request.message.value.to.value)
  {
    hide AddSession, NewSock;
    CreateSocket(st, e, now);
    var m := e.request.message.value;
    var st1 := AddSession(st, e.env.newSid, m.wait.value * 1000, m.to.value, now);
    AddOut(st, e.env.newSid, m.wait.value * 1000, m.to.value, now);
    AnswerCarries(st1, e.conn, Created(e.env.newSid), u);
    DeliveredSnoc(st.out, Answer(e.conn, Created(e.env.newSid), None), u);
    if u == st.nextUid {
      AddNew(st, e.env.newSid, m.wait.value * 1000, m.to.value, now);
    } else {
      AddOld(st, e.env.newSid, m.wait.value * 1000, m.to.value, now, u);
      TransSilent(st.(nextUid := st.nextUid + 1), st1, AnswerOn(st1, e.conn, Created(e.env.newSid), None), u, []);
    }
  }

  lemma AddOut(st: State, sid: nat, wait: int, host: Bytes, now: int)
    ensures AddSession(st, sid, wait, host, now).out == st.out
    ensures AddSession(st, sid, wait, host, now).nextUid == st.nextUid + 1
  {
  }

  lemma {:induction false} UnbornIsSilent(out: seq<Out>, u: Uid)
    requires forall k | 0 <= k < |out| :: out[k].owner != Some(u)
    ensures Delivered(out, u) == []
  {
    if out != [] {
      UnbornIsSilent(out[..|out| - 1], u);
    }
  }

  /** A session that has not been created has received and posted nothing. */
  lemma {:induction false} UnbornHasNothing(timeout: int, events: seq<Timed>, u: Uid)
    requires Possible(Initial(timeout), events) && Run(Initial(timeout), events).nextUid <= u
    ensures Received(events, u) == [] && Posted(Initial(timeout), events, u) == []
    decreases |events|
  {
    hide Step;
    SubmittedExact(timeout, events, u);
    if events != [] {
      var init := events[..|events| - 1];
      var last := events[|events| - 1];
      var before := Run(Initial(timeout), init);
      RunKeeps(timeout, init);
      if last.event.HttpRequest? && Creates(last.event.request, last.event.env) {
        CreateCarries(before, last.event, last.now, u);
      } else {
        StepCarries(before, last.event, last.now, u);
      }
      UnbornHasNothing(timeout, init, u);
    }
  }

  lemma {:induction false} DeliveryCore(timeout: int, events: seq<Timed>, u: Uid)
    requires Possible(Initial(timeout), events)
    requires Live(Run(Initial(timeout), events), u)
    ensures var st := Run(Initial(timeout), events);
            Delivered(st.out, u) + QueueOf(st, u) == Received(events, u)
    decreases |events|
  {
    hide Step, Enabled;
    if events != [] {
      var init := events[..|events| - 1];
      var last := events[|events| - 1];
      var before := Run(Initial(timeout), init);
      RunKeeps(timeout, init);
      if last.event.HttpRequest? && Creates(last.event.request, last.event.env) {
        CreateCarries(before, last.event, last.now, u);
        if u == before.nextUid {
          UnbornHasNothing(timeout, init, u);
          UnbornIsSilent(before.out, u);
        } else {
          DeliveryCore(timeout, init, u);
        }
      } else {
        StepCarries(before, last.event, last.now, u);
        DeliveryCore(timeout, init, u);
      }
    }
  }

  /** For every live session of every possible run, the stanzas in all bodies
      sent so far followed by its queue are exactly the normal stanzas received
      for it, in order; a session that holds a request has an empty queue; and
      the bytes the kernel accepted on its XMPP socket are a prefix of the
      stream header followed by every posted stanza. */
  lemma DeliveryExact(timeout: int, events: seq<Timed>, u: Uid)
    requires Possible(Initial(timeout), events)
    requires Live(Run(Initial(timeout), events), u)
    ensures var st := Run(Initial(timeout), events);
            var s := st.sessions[IndexOfUid(st.sessions, u)];
            && Delivered(st.out, u) + s.queue == Received(events, u)
            && (s.conn.Some? ==> s.queue == [])
            && s.sock.submitted == Posted(Initial(timeout), events, u)
            && s.sock.accepted <= Posted(Initial(timeout), events, u)
            && (s.sock.open ==> s.sock.accepted + Pending(s.sock.queue) == Posted(Initial(timeout), events, u))
  {
    hide Run, Possible;
    RunKeeps(timeout, events);
    DeliveryCore(timeout, events, u);
    SubmittedExact(timeout, events, u);
    AcceptedPrefix(timeout, events, u);
  }

  /** For every session of every possible run, live or over, the stanzas sent to
      its client are the first of those received for it: none is repeated, none
      is overtaken, and only the end of the session cuts the sequence short. */
  lemma {:induction false} DeliveredInOrder(timeout: int, events: seq<Timed>, u: Uid)
    requires Possible(Initial(timeout), events)
    ensures Delivered(Run(Initial(timeout), events).out, u) <= Received(events, u)
    decreases |events|
  {
    hide Step, Enabled, Run, Carries, Live;
    if Live(Run(Initial(timeout), events), u) {
      DeliveryCore(timeout, events, u);
    } else if events == [] {
      NothingSentYet(timeout, u);
    } else {
      var init, last := events[..|events| - 1], events[|events| - 1];
      var before := Run(Initial(timeout), init);
      RunUnfolds(timeout, events);
      RunKeeps(timeout, init);
      DeliveredInOrder(timeout, init, u);
      LastDelivered(before, last.event, last.now, u);
      if Live(before, u) {
        DeliveryCore(timeout, init, u);
      }
    }
  }

  lemma NothingSentYet(timeout: int, u: Uid)
    ensures Delivered(Run(Initial(timeout), []).out, u) == []
  {
  }

  lemma RunUnfolds(timeout: int, events: seq<Timed>)
    requires Possible(Initial(timeout), events) && events != []
    ensures var init, last := events[..|events| - 1], events[|events| - 1];
            && Possible(Initial(timeout), init) && Enabled(Run(Initial(timeout), init), last.event)
            && Run(Initial(timeout), events) == Step(Run(Initial(timeout), init), last.event, last.now)
  {
  }

  /** What a handler that leaves session `u` over has sent to its client. */
  lemma LastDelivered(st: State, e: Event, now: int, u: Uid)
    requires Inv(st) && Enabled(st, e) && !Live(Step(st, e, now), u)
    ensures Live(st, u) ==>
              Delivered(Step(st, e, now).out, u) <= Delivered(st.out, u) + QueueOf(st, u) + ReceivedIn(e, u)
    ensures !Live(st, u) ==> Delivered(Step(st, e, now).out, u) == Delivered(st.out, u)
  {
    hide Step, Enabled;
    if e.HttpRequest? && Creates(e.request, e.env) {
      CreateCarries(st, e, now, u);
    } else {
      StepCarries(st, e, now, u);
    }
  }
}
