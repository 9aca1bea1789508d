/** The XMPP sockets of all sessions, live and over, through whole runs: what
    reaches them, when they break without anybody being told, and that nothing
    is stranded in them. */
module BrokerSockets {
  import opened Common
  import opened SocketModel
  import opened BrokerModel
  import opened BrokerInvariant
  import opened BrokerPairing

  predicate Creates(request: Request, env: Env) {
    request.Post? && request.message.Some? && request.message.value.sid.NoSid? &&
    Acceptable(request.message.value, env)
  }

  /** The request is a poll of session `u`. */
  predicate Polls(st: State, e: Event, u: Uid) {
    e.HttpRequest? && Target(st, e.request) < |st.sessions| && st.sessions[Target(st, e.request)].uid == u
  }

  /** The bytes one event asks to be sent on the XMPP socket of session `u`. */
  function PostedIn(st: State, e: Event, u: Uid): Bytes {
    if Polls(st, e, u) then Concat(e.request.message.value.stanzas)
    else if e.HttpRequest? && u == st.nextUid && Creates(e.request, e.env)
    then JabberHeader(e.request.message.value.to.value)
    else []
  }

  /** The stream header followed by every stanza posted to session `u`, in order. */
  function Posted(st: State, events: seq<Timed>, u: Uid): Bytes {
    if events == [] then []
    else
      var init := events[..|events| - 1];
      Posted(st, init, u) + PostedIn(Run(st, init), events[|events| - 1].event, u)
  }

  /** The socket of a live session; any value for another. */
  function Own(st: State, u: Uid): Sock {
    if Live(st, u) then st.sessions[IndexOfUid(st.sessions, u)].sock else Dialled()
  }

  /** From `st` to `st'` the socket of session `u` becomes `sock`, closed on top
      of that if the session ends; sockets of sessions that are over stay. */
  predicate Becomes(st: State, st': State, u: Uid, sock: Sock) {
    && (Live(st', u) ==> Live(st, u))
    && (Live(st, u) ==> SocketOf(st', u) == Some(if Live(st', u) then sock else Close(sock)))
    && (!Live(st, u) ==> SocketOf(st', u) == SocketOf(st, u))
  }

  /** Nothing happens to the socket, except that it is closed if the session ends. */
  predicate Still(st: State, st': State, u: Uid) {
    Becomes(st, st', u, Own(st, u))
  }

  lemma ThenStill(a: State, b: State, c: State, u: Uid, sock: Sock)
    requires Becomes(a, b, u, sock) && Still(b, c, u)
    ensures Becomes(a, c, u, sock)
  {
  }

  lemma StillThen(a: State, b: State, c: State, u: Uid, sock: Sock)
    requires Still(a, b, u) && Becomes(b, c, u, sock) && (Live(a, u) ==> Live(b, u))
    ensures Becomes(a, c, u, sock)
  {
  }

  // ----- the pieces of a handler -----

  lemma SameSockets(st: State, st': State, u: Uid)
    requires st'.sessions == st.sessions && st'.ended == st.ended
    ensures Still(st, st', u) && (Live(st', u) <==> Live(st, u))
  {
  }

  lemma PutSocket(st: State, st': State, i: nat, u: Uid)
    requires Distinct(st.sessions) && i < |st.sessions| == |st'.sessions| && st'.ended == st.ended
    requires st'.sessions == st.sessions[i := st'.sessions[i]] && st'.sessions[i].uid == st.sessions[i].uid
    ensures Becomes(st, st', u, if u == st.sessions[i].uid then st'.sessions[i].sock else Own(st, u))
    ensures Live(st', u) <==> Live(st, u)
    ensures st'.sessions[i].sock == st.sessions[i].sock ==> Still(st, st', u)
  {
    IndexIs(st.sessions, i);
    IndexAfterPut(st.sessions, i, st'.sessions[i], u);
  }

  lemma FlushSocket(st: State, i: nat, now: int, u: Uid)
    requires Distinct(st.sessions) && i < |st.sessions|
    ensures Still(st, FlushMessages(st, i, now), u) && (Live(FlushMessages(st, i, now), u) <==> Live(st, u))
  {
    hide Becomes;
    PutSocket(st, FlushMessages(st, i, now), i, u);
  }

  lemma DropSocket(st: State, i: nat, terminate: bool, now: int, u: Uid)
    requires Distinct(st.sessions) && i < |st.sessions| && st.sessions[i].conn.Some?
    ensures Still(st, DropRequest(st, i, terminate, now), u)
    ensures Live(DropRequest(st, i, terminate, now), u) <==> Live(st, u)
  {
    hide Becomes;
    PutSocket(st, DropRequest(st, i, terminate, now), i, u);
  }

  lemma RemoveSocket(st: State, i: nat, u: Uid)
    requires Distinct(st.sessions) && i < |st.sessions|
    ensures Still(st, Remove(st, i), u)
    ensures Live(Remove(st, i), u) <==> Live(st, u) && u != st.sessions[i].uid
  {
    DistinctAfterRemove(st.sessions, i);
    IndexIs(st.sessions, i);
    if u != st.sessions[i].uid {
      var t := st.sessions[..i] + st.sessions[i + 1..];
      var j := IndexOfUid(st.sessions, u);
      IndexAfterRemove(st.sessions, i, u);
      assert j < |st.sessions| ==> t[Shifted(i, j)] == st.sessions[j];
    }
  }

  /** A session that ends has its socket closed as it stands; no other session
      is touched. */
  lemma CloseSocketOf(st: State, i: nat, now: int, u: Uid)
    requires Distinct(st.sessions) && i < |st.sessions|
    ensures Still(st, CloseClient(st, i, now), u)
    ensures Live(CloseClient(st, i, now), u) <==> Live(st, u) && u != st.sessions[i].uid
  {
    hide Becomes, Distinct;
    if st.sessions[i].conn.Some? {
      var st1 := DropRequest(st, i, true, now);
      DropSocket(st, i, true, now, u);
      DistinctStays(st, st1, i);
      RemoveSocket(st1, i, u);
      ThenStill(st, st1, CloseClient(st, i, now), u, Own(st, u));
    } else {
      RemoveSocket(st, i, u);
    }
  }

  lemma DistinctStays(st: State, st': State, i: nat)
    requires Distinct(st.sessions) && i < |st.sessions| == |st'.sessions|
    requires st'.sessions == st.sessions[i := st'.sessions[i]]
    requires st'.sessions[i].uid == st.sessions[i].uid && st'.sessions[i].sid == st.sessions[i].sid
    ensures Distinct(st'.sessions)
  {
  }

  lemma SetHttpSocket(st: State, i: nat, conn: Conn, now: int, u: Uid)
    requires Distinct(st.sessions) && i < |st.sessions|
    ensures var st' := SetHttp(st, i, conn, now);
            && Still(st, st', u) && (Live(st', u) <==> Live(st, u))
            && |st'.sessions| == |st.sessions| && st'.sessions[i].uid == st.sessions[i].uid
            && st'.sessions[i].sock == st.sessions[i].sock
  {
    hide Becomes;
    PutSocket(st, SetHttp(st, i, conn, now), i, u);
  }

  /** What a poll does to the XMPP socket of its session. */
  function Carried(sock: Sock, m: Message, sends: seq<SendOutcome>): Sock {
    Send(SendAll(sock, m.stanzas), None, false, sends)
  }

  lemma PollSocket(st: State, i: nat, conn: Conn, m: Message, sends: seq<SendOutcome>, now: int, u: Uid)
    requires Inv(st) && i < |st.sessions|
    ensures var st' := PollSession(st, i, conn, m, sends, now);
            var sock := if u == st.sessions[i].uid then Carried(st.sessions[i].sock, m, sends) else Own(st, u);
            && Becomes(st, st', u, sock)
            && (Live(st', u) <==> Live(st, u) && !(m.terminate && u == st.sessions[i].uid))
  {
    hide Becomes, SetHttp, Send, SendAll, CloseClient, SockOk;
    var sock := if u == st.sessions[i].uid then Carried(st.sessions[i].sock, m, sends) else Own(st, u);
    var st1 := SetHttp(st, i, conn, now);
    SetHttpSocket(st, i, conn, now, u);
    SetHttpKeeps(st, i, conn, now);
    var st2 := SendStanzas(st1, i, m.stanzas, sends);
    PutSocket(st1, st2, i, u);
    OwnStays(st, st1, u);
    StillThen(st, st1, st2, u, sock);
    SendStanzasKeeps(st1, i, m.stanzas, sends);
    if m.terminate {
      CloseSocketOf(st2, i, now, u);
      ThenStill(st, st2, CloseClient(st2, i, now), u, sock);
    }
  }

  lemma OwnStays(st: State, st': State, u: Uid)
    requires Still(st, st', u) && (Live(st', u) <==> Live(st, u))
    ensures Own(st', u) == Own(st, u)
  {
  }

  lemma ReadSocket(st: State, i: nat, items: seq<StanzaEvent>, end: ReadEnd, now: int, u: Uid)
    requires Inv(st) && i < |st.sessions|
    ensures var st' := ReadJabber(st, i, items, end, now);
            var own := st.sessions[i].sock;
            && Becomes(st, st', u, if u != st.sessions[i].uid then Own(st, u)
                                   else if end.SocketEnded? then Close(own) else own)
            && (u != st.sessions[i].uid ==> (Live(st', u) <==> Live(st, u)))
            && (u == st.sessions[i].uid && Live(st', u) ==> end.NothingLeft?)
  {
    hide Becomes, FlushMessages, CloseClient, SockOk;
    var s := AfterRead(st.sessions[i], items, end);
    StanzasKeepNames(st.sessions[i], items);
    var sock := if u == s.uid then s.sock else Own(st, u);
    var st1 := Put(st, i, s);
    PutSocket(st, st1, i, u);
    CloseKeepsOk(st.sessions[i].sock);
    PutKeeps(st, i, s);
    var st2 := FlushMessages(st1, i, now);
    FlushSocket(st1, i, now, u);
    FlushKeeps(st1, i, now);
    FlushSettles(st1, i, now);
    ThenStill(st, st1, st2, u, sock);
    CloseSocketOf(st2, i, now, u);
    ThenStill(st, st2, CloseClient(st2, i, now), u, sock);
  }

  lemma ReadySocket(st: State, i: nat, error: int, sends: seq<SendOutcome>, now: int, u: Uid)
    requires Inv(st) && i < |st.sessions|
    ensures var st' := XmppReady(st, i, error, sends, now);
            var own := st.sessions[i].sock;
            && Becomes(st, st', u, if u == st.sessions[i].uid then Writable(own, error, sends) else Own(st, u))
            && (Live(st', u) <==>
                 Live(st, u) && !(u == st.sessions[i].uid && own.status == Connecting && error != 0))
  {
    hide Becomes, Writable, CloseClient, SockOk;
    var s := st.sessions[i].(sock := Writable(st.sessions[i].sock, error, sends));
    var sock := if u == s.uid then s.sock else Own(st, u);
    var st1 := Put(st, i, s);
    PutSocket(st, st1, i, u);
    WritableKeepsOk(st.sessions[i].sock, error, sends);
    PutKeeps(st, i, s);
    CloseSocketOf(st1, i, now, u);
    ThenStill(st, st1, CloseClient(st1, i, now), u, sock);
  }

  lemma ClearSocket(st: State, conn: Conn, now: int, u: Uid)
    requires Inv(st)
    ensures Still(st, ClearHttp(st, conn, now), u) && (Live(ClearHttp(st, conn, now), u) <==> Live(st, u))
  {
    hide Becomes, SockOk;
    if conn in st.callbacks {
      var i, s := ClearIs(st, conn, now);
      hide ClearHttp;
      PutSocket(st, ClearHttp(st, conn, now), i, u);
    } else {
      SameSockets(st, st, u);
    }
  }

  lemma {:induction false} DropDueSocket(st: State, k: nat, now: int, u: Uid)
    requires Inv(st) && k <= |st.sessions|
    ensures Still(st, DropDue(st, k, now), u) && (Live(DropDue(st, k, now), u) <==> Live(st, u))
    decreases |st.sessions| - k
  {
    hide Becomes, SockOk, DropRequest;
    if k == |st.sessions| {
      SameSockets(st, st, u);
    } else if RequestDue(st.sessions[k], now) {
      var st1 := DropRequest(st, k, false, now);
      DropSocket(st, k, false, now, u);
      DropKeeps(st, k, false, now);
      DropDueSocket(st1, k + 1, now, u);
      ThenStill(st, st1, DropDue(st, k, now), u, Own(st, u));
    } else {
      DropDueSocket(st, k + 1, now, u);
    }
  }

  lemma {:induction false} CloseAllSocket(st: State, uids: seq<Uid>, now: int, u: Uid)
    requires Inv(st)
    ensures Still(st, CloseAll(st, uids, now), u)
    decreases |uids|
  {
    hide Becomes, SockOk, CloseClient;
    if uids == [] {
      SameSockets(st, st, u);
    } else {
      var i := IndexOfUid(st.sessions, uids[0]);
      if i < |st.sessions| {
        var st1 := CloseClient(st, i, now);
        CloseSocketOf(st, i, now, u);
        CloseKeeps(st, i, now);
        CloseAllSocket(st1, uids[1..], now, u);
        ThenStill(st, st1, CloseAll(st, uids, now), u, Own(st, u));
      } else {
        CloseAllSocket(st, uids[1..], now, u);
      }
    }
  }

  lemma TickSocket(st: State, now: int, u: Uid)
    requires Inv(st)
    ensures Still(st, CheckTimeout(st, now), u)
  {
    hide Becomes, Inv, DropDue, CloseAll;
    var st1 := DropDue(st, 0, now);
    DropDueSocket(st, 0, now, u);
    DropDueKeeps(st, 0, now);
    CloseAllSocket(st1, ToClose(st.sessions, st.timeout, now), now, u);
    ThenStill(st, st1, CheckTimeout(st, now), u, Own(st, u));
  }

  // ----- one handler -----

  /** What a handler makes of the socket of a live session. */
  function SockAfter(st: State, e: Event, u: Uid): Sock {
    var own := Own(st, u);
    match e
    case HttpRequest(_, request, env) =>
      if Polls(st, e, u) then Carried(own, request.message.value, env.sends) else own
    case XmppData(v, _, end) => if v == u && end.SocketEnded? then Close(own) else own
    case XmppWritable(v, error, sends) => if v == u then Writable(own, error, sends) else own
    case _ => own
  }

  lemma RequestSocket(st: State, e: Event, now: int, u: Uid)
    requires Inv(st) && Enabled(st, e) && e.HttpRequest? && (Creates(e.request, e.env) ==> u != st.nextUid)
    ensures Becomes(st, Step(st, e, now), u, SockAfter(st, e, u))
    ensures Live(Step(st, e, now), u) <==>
              Live(st, u) && !(Polls(st, e, u) && e.request.message.value.terminate)
  {
    hide Becomes, PollSession, ConnectClient, Inv, Enabled;
    var t := Target(st, e.request);
    if t < |st.sessions| {
      PollSocket(st, t, e.conn, e.request.message.value, e.env.sends, now, u);
      OwnIs(st, t);
    } else if e.request.Post? && e.request.message.Some? && e.request.message.value.sid.NoSid? {
      ConnectSocket(st, e.conn, e.request.message.value, e.env, now, u);
    } else {
      SameSockets(st, Step(st, e, now), u);
    }
  }

  lemma OwnIs(st: State, i: nat)
    requires Inv(st) && i < |st.sessions|
    ensures Live(st, st.sessions[i].uid) && Own(st, st.sessions[i].uid) == st.sessions[i].sock
  {
    IndexIs(st.sessions, i);
  }

  lemma ConnectSocket(st: State, conn: Conn, m: Message, env: Env, now: int, u: Uid)
    requires Inv(st) && (Acceptable(m, env) ==> u != st.nextUid)
    ensures Still(st, ConnectClient(st, conn, m, env, now), u)
    ensures Live(ConnectClient(st, conn, m, env, now), u) <==> Live(st, u)
  {
    hide NewSock, SockOk;
    if Acceptable(m, env) {
      var s := Session(st.nextUid, env.newSid, None, [], true, now, m.wait.value * 1000, NewSock(m.to.value));
      IndexAfterAppend(st.sessions, s, u);
      assert ConnectClient(st, conn, m, env, now).sessions == st.sessions + [s];
    }
  }

  /** A handler does to the XMPP socket of a session, live or over, exactly what
      its own event says, and closes it if the session ends. */
  lemma StepSocket(st: State, e: Event, now: int, u: Uid)
    requires Inv(st) && Enabled(st, e)
    requires e.HttpRequest? && Creates(e.request, e.env) ==> u != st.nextUid
    ensures Becomes(st, Step(st, e, now), u, SockAfter(st, e, u))
  {
    hide Becomes, HandleRequest, ClearHttp, ReadJabber, XmppReady, CloseClient, CheckTimeout, SockOk;
    match e
    case HttpRequest(_, _, _) => RequestSocket(st, e, now, u);
    case HttpClosed(conn) => ClearSocket(st, conn, now, u);
    case XmppData(v, items, end) => ReadSocket(st, IndexOfUid(st.sessions, v), items, end, now, u);
    case XmppWritable(v, error, sends) => ReadySocket(st, IndexOfUid(st.sessions, v), error, sends, now, u);
    case XmppError(v) => CloseSocketOf(st, IndexOfUid(st.sessions, v), now, u);
    case Tick => TickSocket(st, now, u);
  }

  /** The handler that creates session `st.nextUid`. */
  lemma CreateSocket(st: State, e: Event, now: int)
    requires Inv(st) && e.HttpRequest? && Creates(e.request, e.env)
    ensures var st' := Step(st, e, now);
            && Live(st', st.nextUid) && st'.nextUid == st.nextUid + 1
            && Own(st', st.nextUid) == NewSock(e.request.message.value.to.value)
  {
    hide NewSock, SockOk;
    var m := e.request.message.value;
    var s := Session(st.nextUid, e.env.newSid, None, [], true, now, m.wait.value * 1000, NewSock(m.to.value));
    IndexAfterAppend(st.sessions, s, st.nextUid);
    assert Step(st, e, now).sessions == st.sessions + [s];
  }

  lemma {:induction false} DropDueNumbers(st: State, k: nat, now: int)
    requires k <= |st.sessions|
    ensures DropDue(st, k, now).nextUid == st.nextUid
    decreases |st.sessions| - k
  {
    if k < |st.sessions| {
      DropDueNumbers(if RequestDue(st.sessions[k], now) then DropRequest(st, k, false, now) else st, k + 1, now);
    }
  }

  lemma {:induction false} CloseAllNumbers(st: State, uids: seq<Uid>, now: int)
    ensures CloseAll(st, uids, now).nextUid == st.nextUid
    decreases |uids|
  {
    if uids != [] {
      var i := IndexOfUid(st.sessions, uids[0]);
      CloseAllNumbers(if i < |st.sessions| then CloseClient(st, i, now) else st, uids[1..], now);
    }
  }

  lemma PollNumbers(st: State, i: nat, conn: Conn, m: Message, sends: seq<SendOutcome>, now: int)
    requires i < |st.sessions|
    ensures PollSession(st, i, conn, m, sends, now).nextUid == st.nextUid
  {
    hide Send, SendAll;
  }

  lemma NumbersStay(st: State, e: Event, now: int)
    requires Inv(st) && Enabled(st, e) && !(e.HttpRequest? && Creates(e.request, e.env))
    ensures Step(st, e, now).nextUid == st.nextUid
  {
    hide PollSession, SockOk, NewSock, DropDue, CloseAll, Writable, AfterRead, Drain;
    if e.HttpRequest? && Target(st, e.request) < |st.sessions| {
      PollNumbers(st, Target(st, e.request), e.conn, e.request.message.value, e.env.sends, now);
    } else if e.Tick? {
      DropDueNumbers(st, 0, now);
      CloseAllNumbers(DropDue(st, 0, now), ToClose(st.sessions, st.timeout, now), now);
    }
  }

  // ----- whole runs -----

  /** `sock_send` was last called with `more` cleared, and submitted exactly
      `posted`; and somebody reads what comes in. */
  predicate Delivers(sock: Sock, posted: Bytes) {
    sock.submitted == posted && !sock.lastMore && sock.wantsData
  }

  lemma CarriedDelivers(sock: Sock, m: Message, sends: seq<SendOutcome>, posted: Bytes)
    requires SockOk(sock) && Delivers(sock, posted)
    ensures Delivers(Carried(sock, m, sends), posted + Concat(m.stanzas))
  {
    hide SockOk, Flush, SendAll;
    SendAllKeepsOk(sock, m.stanzas);
    SendKeepsOk(SendAll(sock, m.stanzas), None, false, sends);
    SendAllWants(sock, m.stanzas);
    FlushMore(SendAll(sock, m.stanzas).(lastMore := false), sends);
  }

  lemma {:induction false} SendAllWants(sock: Sock, buffers: seq<Bytes>)
    ensures SendAll(sock, buffers).wantsData == sock.wantsData
    decreases |buffers|
  {
    if buffers != [] {
      SendAllWants(Send(sock, Some(buffers[0]), true, []), buffers[1..]);
    }
  }

  lemma FlushMore(sock: Sock, sends: seq<SendOutcome>)
    ensures Flush(sock, sends).lastMore == sock.lastMore && Flush(sock, sends).wantsData == sock.wantsData
  {
  }

  lemma AfterDelivers(st: State, e: Event, u: Uid, posted: Bytes)
    requires Inv(st) && Live(st, u) && Delivers(Own(st, u), posted)
    ensures Delivers(SockAfter(st, e, u), posted + PostedIn(st, e, u))
  {
    hide SockOk, Send, SendAll, Flush;
    assert SockOk(Own(st, u));
    assert posted + [] == posted;
    if Polls(st, e, u) {
      CarriedDelivers(Own(st, u), e.request.message.value, e.env.sends, posted);
    } else if e.XmppWritable? && e.uid == u {
      WritableKeepsOk(Own(st, u), e.error, e.sends);
      FlushMore(Own(st, u), e.sends);
    }
  }

  lemma NewDelivers(host: Bytes)
    ensures Delivers(NewSock(host), JabberHeader(host))
  {
    NewSockOk(host);
  }

  lemma NothingPosted(st: State, e: Event, u: Uid)
    requires Inv(st) && !Live(st, u) && u < st.nextUid
    ensures PostedIn(st, e, u) == []
  {
    if Polls(st, e, u) {
      OwnIs(st, Target(st, e.request));
      assert false;
    }
  }

  /** For every session of every possible run, live or over, its XMPP socket was
      given exactly the stream header and every stanza posted to it, in order. */
  lemma {:induction false} SubmittedExact(timeout: int, events: seq<Timed>, u: Uid)
    requires Possible(Initial(timeout), events)
    ensures var st := Run(Initial(timeout), events);
            && (SocketOf(st, u).Some? <==> u < st.nextUid)
            && (u < st.nextUid ==> Delivers(SocketOf(st, u).value, Posted(Initial(timeout), events, u)))
            && (u >= st.nextUid ==> Posted(Initial(timeout), events, u) == [])
    decreases |events|
  {
    hide Step, Enabled, PostedIn, SockAfter, Becomes, Delivers, NewSock, JabberHeader;
    if events != [] {
      var init, last := events[..|events| - 1], events[|events| - 1];
      var before := Run(Initial(timeout), init);
      RunKeeps(timeout, init);
      SubmittedExact(timeout, init, u);
      hide Inv;
      SubmittedStep(before, last.event, last.now, u, Posted(Initial(timeout), init, u));
    }
  }

  lemma SubmittedStep(st: State, e: Event, now: int, u: Uid, posted: Bytes)
    requires Inv(st) && Enabled(st, e)
    requires SocketOf(st, u).Some? <==> u < st.nextUid
    requires u < st.nextUid ==> Delivers(SocketOf(st, u).value, posted)
    requires u >= st.nextUid ==> posted == []
    ensures var st' := Step(st, e, now);
            && (SocketOf(st', u).Some? <==> u < st'.nextUid)
            && (u < st'.nextUid ==> Delivers(SocketOf(st', u).value, posted + PostedIn(st, e, u)))
            && (u >= st'.nextUid ==> posted + PostedIn(st, e, u) == [])
  {
    hide Step, Enabled, SockAfter, NewSock, JabberHeader, SockOk;
    var creates := e.HttpRequest? && Creates(e.request, e.env);
    if creates {
      CreateSocket(st, e, now);
      NewDelivers(e.request.message.value.to.value);
    } else {
      NumbersStay(st, e, now);
    }
    if !(creates && u == st.nextUid) {
      StepSocket(st, e, now, u);
      if Live(st, u) {
        AfterDelivers(st, e, u, posted);
      } else if u < st.nextUid {
        NothingPosted(st, e, u);
      } else {
        NobodyYet(st, e, u);
      }
    } else {
      NobodyYet(st, e, u);
    }
  }

  lemma NobodyYet(st: State, e: Event, u: Uid)
    requires Inv(st) && u >= st.nextUid
    ensures !Polls(st, e, u)
  {
  }

  /** For every session of every possible run, live or over, the bytes the kernel
      accepted on its XMPP socket are a prefix of the stream header followed by
      every stanza posted to it in order, through its connecting, partial writes,
      failures and the request that ends it.  While the socket is open the queue
      is exactly the rest; once it is connected, it is read, and if data waits,
      writability has been asked for; the socket of a session that is over is
      closed. */
  lemma AcceptedPrefix(timeout: int, events: seq<Timed>, u: Uid)
    requires Possible(Initial(timeout), events) && u < Run(Initial(timeout), events).nextUid
    ensures var st := Run(Initial(timeout), events);
            SocketOf(st, u).Some? &&
            var s, posted := SocketOf(st, u).value, Posted(Initial(timeout), events, u);
            && s.accepted <= posted
            && (s.open ==> s.accepted + Pending(s.queue) == posted)
            && (s.status == Connected && s.queue != [] ==> PollOut in s.mask)
            && (s.status == Connected ==> PollIn in s.mask)
            && (!Live(st, u) ==> !s.open)
  {
    hide Run, Possible;
    RunKeeps(timeout, events);
    SubmittedExact(timeout, events, u);
  }

  // ----- what the kernel gets -----

  function Sizes(buffers: seq<Bytes>): seq<nat> {
    if buffers == [] then [] else [|buffers[0]|] + Sizes(buffers[1..])
  }

  lemma {:induction false} SendAllQueues(sock: Sock, buffers: seq<Bytes>)
    requires SockOk(sock)
    ensures var t := SendAll(sock, buffers);
            && Pending(t.queue) == Pending(sock.queue) + Concat(buffers)
            && Lengths(t.queue) == Lengths(sock.queue) + Sizes(buffers)
            && t.accepted == sock.accepted && t.status == sock.status && t.mask == sock.mask
    decreases |buffers|
  {
    hide SockOk, Lengths, Pending, Send, Took;
    if buffers == [] {
      assert Pending(sock.queue) + [] == Pending(sock.queue) && Lengths(sock.queue) + [] == Lengths(sock.queue);
    } else {
      var next := Send(sock, Some(buffers[0]), true, []);
      SendExact(sock, Some(buffers[0]), true, []);
      SendKeepsOk(sock, Some(buffers[0]), true, []);
      SendAllQueues(next, buffers[1..]);
      AppendAssociates(Pending(sock.queue), buffers[0], Concat(buffers[1..]));
      AppendAssociates(Lengths(sock.queue), [|buffers[0]|], Sizes(buffers[1..]));
    }
  }

  /** What a flush of these blocks, with these bytes, hands to the kernel. */
  function Handed(lengths: seq<nat>, bytes: Bytes, sends: seq<SendOutcome>): Bytes {
    var n := Took(lengths, sends);
    if n <= |bytes| then bytes[..n] else bytes
  }

  /** The bytes a handler hands to the kernel on the socket of a live session: for
      a poll of it, what is pending with its own stanzas last, and for readiness,
      what is pending, as far as the kernel's counts go; otherwise nothing. */
  function HandedIn(st: State, e: Event, u: Uid): Bytes {
    var own := Own(st, u);
    if own.status != Connected then []
    else
      match e
      case HttpRequest(_, request, env) =>
        if Polls(st, e, u) then
          Handed(Lengths(own.queue) + Sizes(request.message.value.stanzas),
                 Pending(own.queue) + Concat(request.message.value.stanzas), env.sends)
        else []
      case XmppWritable(v, _, sends) =>
        if v == u then Handed(Lengths(own.queue), Pending(own.queue), sends) else []
      case _ => []
  }

  lemma CarriedAccepts(sock: Sock, m: Message, sends: seq<SendOutcome>)
    requires SockOk(sock)
    ensures Carried(sock, m, sends).accepted ==
              sock.accepted + if sock.status == Connected
                              then Handed(Lengths(sock.queue) + Sizes(m.stanzas),
                                          Pending(sock.queue) + Concat(m.stanzas), sends)
                              else []
  {
    hide SockOk, Lengths, Pending, Send, SendAll, Took;
    SendAllKeepsOk(sock, m.stanzas);
    SendAllQueues(sock, m.stanzas);
    SendExact(SendAll(sock, m.stanzas), None, false, sends);
    var lengths := Lengths(sock.queue) + Sizes(m.stanzas);
    var bytes := Pending(sock.queue) + Concat(m.stanzas);
    assert lengths + [] == lengths && bytes + [] == bytes && sock.accepted + [] == sock.accepted;
  }

  /** A handler hands to the kernel exactly what its counts say, from the front of
      what is pending, also when the session ends with it. */
  lemma StepAccepts(st: State, e: Event, now: int, u: Uid)
    requires Inv(st) && Enabled(st, e) && Live(st, u)
    ensures SocketOf(Step(st, e, now), u).Some?
    ensures SocketOf(Step(st, e, now), u).value.accepted == Own(st, u).accepted + HandedIn(st, e, u)
  {
    hide Step, Enabled, SockOk, Writable, Carried, Close, Lengths, Pending, Took;
    assert SockOk(Own(st, u));
    StepSocket(st, e, now, u);
    assert Own(st, u).accepted + [] == Own(st, u).accepted;
    SockAfterAccepts(st, e, u);
    ClosedAccepts(SockAfter(st, e, u));
  }

  lemma ClosedAccepts(sock: Sock)
    ensures Close(sock).accepted == sock.accepted
  {
  }

  lemma SockAfterAccepts(st: State, e: Event, u: Uid)
    requires Live(st, u) && SockOk(Own(st, u))
    ensures SockAfter(st, e, u).accepted == Own(st, u).accepted + HandedIn(st, e, u)
  {
    hide SockOk, Writable, Carried, Close, Lengths, Pending, Took;
    var own := Own(st, u);
    assert own.accepted + [] == own.accepted;
    if Polls(st, e, u) {
      CarriedAccepts(own, e.request.message.value, e.env.sends);
    } else if e.XmppWritable? && e.uid == u {
      WritableExact(own, e.error, e.sends);
    }
    ClosedAccepts(own);
  }

  // ----- when a socket is connected -----

  /** Readiness for writing has been reported for session `u`. */
  predicate Reported(events: seq<Timed>, u: Uid) {
    events != [] &&
    (Reported(events[..|events| - 1], u) ||
     (events[|events| - 1].event.XmppWritable? && events[|events| - 1].event.uid == u))
  }

  lemma SteadyAfter(st: State, e: Event, now: int, u: Uid)
    requires Inv(st) && Enabled(st, e) && Live(st, u) && Live(Step(st, e, now), u)
    requires Own(st, u).open <==> Own(st, u).status != Idle
    ensures var own, t := Own(st, u), Own(Step(st, e, now), u);
            && (t.open <==> t.status != Idle) && (t.open ==> own.open)
            && (t.open ==> (t.status == Connected <==>
                            own.status == Connected || (e.XmppWritable? && e.uid == u)))
  {
    hide Step, Enabled, SockOk, Send, SendAll, Writable, Carried, SockAfter, Close;
    assert SockOk(Own(st, u));
    StepSocket(st, e, now, u);
    SockAfterUnfolds(st, e, u);
    var own := Own(st, u);
    if Polls(st, e, u) {
      CarriedSteady(own, e.request.message.value, e.env.sends);
    } else if e.XmppWritable? && e.uid == u {
      ReadyLives(st, e, now, u);
      ReadyOpen(st, e, u);
      WritableSteady(own, e.error, e.sends);
    } else if e.XmppData? && e.uid == u {
      EndedIsOver(st, e, now, u);
    }
  }

  lemma ReadyOpen(st: State, e: Event, u: Uid)
    requires Enabled(st, e) && e.XmppWritable? && e.uid == u && Live(st, u)
    ensures Own(st, u).open
  {
  }

  lemma ReadyLives(st: State, e: Event, now: int, u: Uid)
    requires Inv(st) && Enabled(st, e) && e.XmppWritable? && e.uid == u && Live(st, u) && Live(Step(st, e, now), u)
    ensures !(Own(st, u).status == Connecting && e.error != 0)
  {
    hide XmppReady, Becomes, SockOk;
    ReadySocket(st, IndexOfUid(st.sessions, u), e.error, e.sends, now, u);
  }

  lemma CarriedSteady(sock: Sock, m: Message, sends: seq<SendOutcome>)
    requires SockOk(sock) && (sock.open <==> sock.status != Idle)
    ensures var t := Carried(sock, m, sends);
            && (t.open <==> t.status != Idle) && (t.open ==> sock.open)
            && (t.open ==> t.status == sock.status)
  {
    hide SockOk, Lengths, Pending, SendAll, Took, Refused, Flush;
    SendAllKeepsOk(sock, m.stanzas);
    SendAllOpen(sock, m.stanzas);
    var s := SendAll(sock, m.stanzas).(lastMore := false);
    if s.status == Connected {
      WellQueuedOf(SendAll(sock, m.stanzas));
      FlushExact(s, sends);
    }
  }

  lemma WellQueuedOf(sock: Sock)
    requires SockOk(sock)
    ensures WellQueued(sock.queue)
  {
  }

  lemma WritableSteady(sock: Sock, error: int, sends: seq<SendOutcome>)
    requires SockOk(sock) && sock.open && sock.status != Idle && (sock.status == Connecting ==> error == 0)
    ensures var t := Writable(sock, error, sends);
            && (t.open <==> t.status != Idle)
            && (t.open ==> t.status == Connected)
  {
    hide Lengths, Pending, Took, Refused, Flush;
    if sock.status == Connected {
      FlushExact(sock, sends);
    }
  }

  /** The socket of a live session is idle exactly when it is closed; an open one is
      connected exactly from the first report of readiness on. */
  lemma {:induction false} ConnectedExact(timeout: int, events: seq<Timed>, u: Uid)
    requires Possible(Initial(timeout), events) && Live(Run(Initial(timeout), events), u)
    ensures var own := Own(Run(Initial(timeout), events), u);
            && (own.open <==> own.status != Idle)
            && (own.open ==> (own.status == Connected <==> Reported(events, u)))
    decreases |events|
  {
    hide Step, Enabled, NewSock;
    if events != [] {
      var init, last := events[..|events| - 1], events[|events| - 1];
      var before := Run(Initial(timeout), init);
      RunKeeps(timeout, init);
      hide Inv;
      if last.event.HttpRequest? && Creates(last.event.request, last.event.env) && u == before.nextUid {
        CreateSocket(before, last.event, last.now);
        NewOpen(last.event.request.message.value.to.value);
        NeverReported(timeout, events, u);
      } else {
        StepSocket(before, last.event, last.now, u);
        ConnectedExact(timeout, init, u);
        SteadyAfter(before, last.event, last.now, u);
      }
    }
  }

  /** Nothing was reported for a session that has only just been created. */
  lemma {:induction false} NeverReported(timeout: int, events: seq<Timed>, u: Uid)
    requires Possible(Initial(timeout), events)
    requires events != [] ==> Run(Initial(timeout), events[..|events| - 1]).nextUid <= u
    ensures !Reported(events, u)
    decreases |events|
  {
    hide Step;
    if events != [] {
      var init, last := events[..|events| - 1], events[|events| - 1];
      var before := Run(Initial(timeout), init);
      RunKeeps(timeout, init);
      if Live(before, u) {
        assert false;
      }
      if init != [] {
        NumbersGrow(timeout, init);
      }
      NeverReported(timeout, init, u);
    }
  }

  // ----- sockets that break without a callback -----

  /** The kernel answers this handler's flush of the session's socket with an
      error while bytes are left; the source closes the socket then and calls
      nobody. */
  ghost predicate BrokenBy(st: State, e: Event, u: Uid) {
    var own := Own(st, u);
    && own.status == Connected
    && match e
       case HttpRequest(_, request, env) =>
         Polls(st, e, u) && Refused(SendAll(own, request.message.value.stanzas).queue, env.sends)
       case XmppWritable(v, _, sends) => v == u && Refused(own.queue, sends)
       case _ => false
  }

  /** Some flush for session `u` was refused in the run. */
  ghost predicate Broken(st: State, events: seq<Timed>, u: Uid) {
    events != [] &&
    var init := events[..|events| - 1];
    Broken(st, init, u) || BrokenBy(Run(st, init), events[|events| - 1].event, u)
  }

  lemma CarriedOpen(sock: Sock, m: Message, sends: seq<SendOutcome>)
    requires SockOk(sock)
    ensures Carried(sock, m, sends).open <==>
              sock.open && !(sock.status == Connected && Refused(SendAll(sock, m.stanzas).queue, sends))
  {
    hide Drain, SendAll, Refused;
    SendAllKeepsOk(sock, m.stanzas);
    SendAllOpen(sock, m.stanzas);
    DrainFailsExact(SendAll(sock, m.stanzas).queue, sends);
    hide SockOk;
    if sock.status == Connected {
      OpenIfConnected(sock);
    }
  }

  lemma OpenIfConnected(sock: Sock)
    requires SockOk(sock) && sock.status != Idle
    ensures sock.open
  {
  }

  lemma {:induction false} SendAllOpen(sock: Sock, buffers: seq<Bytes>)
    ensures SendAll(sock, buffers).open == sock.open
    decreases |buffers|
  {
    if buffers != [] {
      SendAllOpen(Send(sock, Some(buffers[0]), true, []), buffers[1..]);
    }
  }

  lemma WritableOpen(sock: Sock, error: int, sends: seq<SendOutcome>)
    requires SockOk(sock)
    ensures Writable(sock, error, sends).open <==>
              sock.open && !(sock.status == Connected && Refused(sock.queue, sends))
  {
    hide Drain, Refused;
    DrainFailsExact(sock.queue, sends);
  }

  /** The socket of a session that survives a handler breaks in it exactly when
      the kernel refuses a flush. */
  lemma BreakExact(st: State, e: Event, now: int, u: Uid)
    requires Inv(st) && Enabled(st, e) && Live(st, u) && Live(Step(st, e, now), u)
    ensures Own(Step(st, e, now), u).open <==> Own(st, u).open && !BrokenBy(st, e, u)
  {
    hide Drain, Refused, Send, SendAll, Writable, SockOk, Step, Enabled, SockAfter, Close, Carried;
    assert SockOk(Own(st, u));
    StepSocket(st, e, now, u);
    SockAfterUnfolds(st, e, u);
    if Polls(st, e, u) {
      CarriedOpen(Own(st, u), e.request.message.value, e.env.sends);
    } else if e.XmppWritable? && e.uid == u {
      WritableOpen(Own(st, u), e.error, e.sends);
    } else if e.XmppData? && e.uid == u {
      EndedIsOver(st, e, now, u);
    }
  }

  lemma SockAfterUnfolds(st: State, e: Event, u: Uid)
    ensures Polls(st, e, u) ==> SockAfter(st, e, u) == Carried(Own(st, u), e.request.message.value, e.env.sends)
    ensures e.XmppWritable? && e.uid == u ==> SockAfter(st, e, u) == Writable(Own(st, u), e.error, e.sends)
    ensures Polls(st, e, u) || (e.XmppWritable? && e.uid == u) ||
            (e.XmppData? && e.uid == u && e.end.SocketEnded?) || SockAfter(st, e, u) == Own(st, u)
  {
  }

  lemma EndedIsOver(st: State, e: Event, now: int, u: Uid)
    requires Inv(st) && Enabled(st, e) && e.XmppData? && e.uid == u && Live(Step(st, e, now), u)
    ensures !e.end.SocketEnded?
  {
    hide ReadJabber, Becomes, SockOk;
    ReadSocket(st, IndexOfUid(st.sessions, u), e.items, e.end, now, u);
  }

  /** A live session's XMPP socket is closed exactly when the kernel has refused
      some flush for it; nothing else closes it and leaves the session alive, and nothing
      opens it again. */
  lemma {:induction false} DeadSocketExact(timeout: int, events: seq<Timed>, u: Uid)
    requires Possible(Initial(timeout), events) && Live(Run(Initial(timeout), events), u)
    ensures !Own(Run(Initial(timeout), events), u).open <==> Broken(Initial(timeout), events, u)
    decreases |events|
  {
    hide Step, Enabled, BrokenBy, NewSock;
    if events != [] {
      var init, last := events[..|events| - 1], events[|events| - 1];
      var before := Run(Initial(timeout), init);
      RunKeeps(timeout, init);
      hide Inv;
      if last.event.HttpRequest? && Creates(last.event.request, last.event.env) && u == before.nextUid {
        CreateSocket(before, last.event, last.now);
        NewOpen(last.event.request.message.value.to.value);
        NeverBroken(timeout, events, u);
      } else {
        StepSocket(before, last.event, last.now, u);
        DeadSocketExact(timeout, init, u);
        BreakExact(before, last.event, last.now, u);
      }
    }
  }

  lemma NewOpen(host: Bytes)
    ensures NewSock(host).open && NewSock(host).status == Connecting
  {
  }

  /** No flush fails for a session that has only just been created. */
  lemma {:induction false} NeverBroken(timeout: int, events: seq<Timed>, u: Uid)
    requires Possible(Initial(timeout), events)
    requires events != [] ==> Run(Initial(timeout), events[..|events| - 1]).nextUid <= u
    ensures !Broken(Initial(timeout), events, u)
    decreases |events|
  {
    hide Step, Enabled;
    if events != [] {
      var init, last := events[..|events| - 1], events[|events| - 1];
      var before := Run(Initial(timeout), init);
      RunKeeps(timeout, init);
      assert !Live(before, u);
      NobodyYet(before, last.event, u);
      assert !BrokenBy(before, last.event, u);
      if init != [] {
        NumbersGrow(timeout, init);
      }
      NeverBroken(timeout, init, u);
    }
  }

  lemma NumbersGrow(timeout: int, events: seq<Timed>)
    requires Possible(Initial(timeout), events) && events != []
    ensures Run(Initial(timeout), events[..|events| - 1]).nextUid <= Run(Initial(timeout), events).nextUid
  {
    var init, last := events[..|events| - 1], events[|events| - 1];
    var before := Run(Initial(timeout), init);
    RunKeeps(timeout, init);
    hide Step, Enabled, Inv;
    if last.event.HttpRequest? && Creates(last.event.request, last.event.env) {
      CreateSocket(before, last.event, last.now);
    } else {
      NumbersStay(before, last.event, last.now);
    }
  }

  /** A session whose socket is closed hears nothing from the XMPP side any more:
      it ends only with a poll that asks for it or with a timeout check. */
  lemma DeadSocketLingers(st: State, e: Event, now: int, u: Uid)
    requires Inv(st) && Enabled(st, e) && Live(st, u) && !Own(st, u).open
    ensures !Live(Step(st, e, now), u) ==>
              e.Tick? || (Polls(st, e, u) && e.request.message.value.terminate)
  {
    hide Becomes, HandleRequest, ClearHttp, ReadJabber, XmppReady, CloseClient, CheckTimeout, SockOk;
    match e
    case HttpRequest(_, request, env) =>
      RequestSocket(st, e, now, u);
    case HttpClosed(conn) => ClearSocket(st, conn, now, u);
    case XmppData(v, items, end) => ReadSocket(st, IndexOfUid(st.sessions, v), items, end, now, u);
    case XmppWritable(v, error, sends) => ReadySocket(st, IndexOfUid(st.sessions, v), error, sends, now, u);
    case XmppError(v) => CloseSocketOf(st, IndexOfUid(st.sessions, v), now, u);
    case Tick =>
  }

  // ----- a run that leaves a dead socket -----

  /** A session is created, its connect succeeds, and its first flush is refused. */
  function RefusedRun(): seq<Timed> {
    [] + [Creation(1, 5)] + [Timed(0, XmppWritable(0, 0, []))] + [Timed(0, XmppWritable(0, 0, [Failed]))]
  }

  /** In this possible run a session is live with a closed socket. */
  lemma DeadSocketHappens(timeout: int)
    ensures Possible(Initial(timeout), RefusedRun())
    ensures Live(Run(Initial(timeout), RefusedRun()), 0)
    ensures !Own(Run(Initial(timeout), RefusedRun()), 0).open
  {
    hide Step, Run, Possible, Enabled;
    var st0 := Initial(timeout);
    var e1 := [] + [Creation(1, 5)];
    var e2 := e1 + [Timed(0, XmppWritable(0, 0, []))];
    FirstRun(timeout);
    RunSnoc(st0, [], Creation(1, 5));
    FirstCreation(timeout);
    RunSnoc(st0, e1, Timed(0, XmppWritable(0, 0, [])));
    ReadyOnly(Run(st0, e1), []);
    RunSnoc(st0, e2, Timed(0, XmppWritable(0, 0, [Failed])));
    ReadyOnly(Run(st0, e2), [Failed]);
    FirstFlushes();
  }

  lemma FirstCreation(timeout: int)
    ensures var e := Creation(1, 5).event;
            var st := Step(Initial(timeout), e, 0);
            && Enabled(Initial(timeout), e)
            && |st.sessions| == 1 && st.sessions[0].uid == 0 && st.sessions[0].sock == NewSock("host")
  {
    hide NewSock;
  }

  /** Readiness for writing, without an error, of the only session. */
  lemma ReadyOnly(st: State, sends: seq<SendOutcome>)
    requires |st.sessions| == 1 && st.sessions[0].uid == 0
    ensures st.sessions[0].sock.open ==> Enabled(st, XmppWritable(0, 0, sends))
    ensures var st' := Step(st, XmppWritable(0, 0, sends), 0);
            && |st'.sessions| == 1 && st'.sessions[0].uid == 0 && Live(st', 0)
            && Own(st', 0) == st'.sessions[0].sock == Writable(st.sessions[0].sock, 0, sends)
  {
    hide Writable;
    assert IndexOfUid(st.sessions, 0) == 0;
  }

  lemma FirstFlushes()
    ensures var ready := Writable(NewSock("host"), 0, []);
            NewSock("host").open && ready.open && !Writable(ready, 0, [Failed]).open
  {
    var ready := Writable(NewSock("host"), 0, []);
    assert ready.queue == [Item(JabberHeader("host"), 0)];
    assert Drain(ready.queue, [Failed]).failed;
  }
}
