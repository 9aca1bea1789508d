/** What the broker tells its clients: the end of a session is the last thing
    said about it, and a request is turned away for exactly one reason. */
module BrokerAnswers {
  import opened Common
  import opened SocketModel
  import opened BrokerModel
  import opened BrokerInvariant
  import opened BrokerPairing

  // ----- the end of a session -----

  /** The notice that a session has ended. */
  predicate Ends(o: Out) {
    o.Answer? && o.body.Terminate?
  }

  ghost function Uids(sessions: seq<Session>): set<Uid> {
    set s | s in sessions :: s.uid
  }

  /** Notice `k` is about a session that is over, and nothing follows it. */
  ghost predicate Final(live: set<Uid>, out: seq<Out>, k: nat)
    requires k < |out|
  {
    && out[k].owner.Some?
    && out[k].owner.value !in live
    && (forall j | k < j < |out| :: out[j].owner != out[k].owner)
  }

  ghost predicate AllFinal(live: set<Uid>, out: seq<Out>) {
    forall k | 0 <= k < |out| && Ends(out[k]) :: Final(live, out, k)
  }

  ghost predicate Tidy(st: State) {
    AllFinal(Uids(st.sessions), st.out)
  }

  lemma Emit(live: set<Uid>, out: seq<Out>, o: Out)
    requires AllFinal(live, out) && !Ends(o) && (o.owner.Some? ==> o.owner.value in live)
    ensures AllFinal(live, out + [o])
  {
    forall k | 0 <= k < |out + [o]| && Ends((out + [o])[k]) ensures Final(live, out + [o], k) {
      assert Final(live, out, k);
    }
  }

  lemma EmitEnd(live: set<Uid>, out: seq<Out>, o: Out)
    requires AllFinal(live, out) && o.owner.Some? && o.owner.value in live
    ensures AllFinal(live - {o.owner.value}, out + [o])
  {
    forall k | 0 <= k < |out + [o]| && Ends((out + [o])[k])
      ensures Final(live - {o.owner.value}, out + [o], k)
    {
      if k < |out| {
        assert Final(live, out, k);
      }
    }
  }

  lemma Shrink(live: set<Uid>, fewer: set<Uid>, out: seq<Out>)
    requires AllFinal(live, out) && fewer <= live
    ensures AllFinal(fewer, out)
  {
    assert forall k | 0 <= k < |out| && Ends(out[k]) :: Final(live, out, k);
  }

  lemma UidsPut(sessions: seq<Session>, i: nat, s: Session)
    requires i < |sessions| && s.uid == sessions[i].uid
    ensures Uids(sessions[i := s]) == Uids(sessions)
  {
    var t := sessions[i := s];
    assert forall k | 0 <= k < |sessions| :: t[k] in t && sessions[k] in sessions && t[k].uid == sessions[k].uid;
  }

  lemma UidsRemove(sessions: seq<Session>, i: nat)
    requires i < |sessions| && Distinct(sessions)
    ensures Uids(sessions[..i] + sessions[i + 1..]) == Uids(sessions) - {sessions[i].uid}
  {
    var t := sessions[..i] + sessions[i + 1..];
    hide Uids, Distinct;
    forall u ensures u in Uids(t) <==> u in Uids(sessions) && u != sessions[i].uid {
      UidsLive(t, u);
      UidsLive(sessions, u);
      DistinctAfterRemove(sessions, i);
      IndexIs(sessions, i);
      if u != sessions[i].uid {
        IndexAfterRemove(sessions, i, u);
      }
    }
  }

  lemma UidsLive(sessions: seq<Session>, u: Uid)
    ensures u in Uids(sessions) <==> IndexOfUid(sessions, u) < |sessions|
  {
    var k := IndexOfUid(sessions, u);
    assert k < |sessions| ==> sessions[k] in sessions;
  }

  lemma UidsIn(sessions: seq<Session>, i: nat)
    requires i < |sessions|
    ensures sessions[i].uid in Uids(sessions)
  {
  }

  lemma PutTidy(st: State, st': State, i: nat)
    requires i < |st.sessions| == |st'.sessions| && Tidy(st) && st'.out == st.out
    requires st'.sessions == st.sessions[i := st'.sessions[i]] && st'.sessions[i].uid == st.sessions[i].uid
    ensures Tidy(st')
  {
    hide AllFinal, Uids;
    UidsPut(st.sessions, i, st'.sessions[i]);
  }

  lemma ReleaseTidy(st: State, i: nat, s: Session, conn: Conn, body: Body)
    requires i < |st.sessions| && Tidy(st) && s.uid == st.sessions[i].uid && !body.Terminate?
    ensures Tidy(AnswerOn(Put(st, i, s), conn, body, Some(s.uid)))
  {
    hide AllFinal, Uids;
    UidsPut(st.sessions, i, s);
    UidsIn(st.sessions, i);
    Emit(Uids(st.sessions), st.out, Answer(conn, body, Some(s.uid)));
  }

  lemma FlushTidy(st: State, i: nat, now: int)
    requires i < |st.sessions| && Tidy(st)
    ensures Tidy(FlushMessages(st, i, now))
  {
    hide Tidy;
    var s := st.sessions[i];
    if s.conn.Some? && s.queue != [] {
      ReleaseTidy(st, i, s.(queue := [], conn := None, timestamp := now), s.conn.value,
                  Messages(s.queue, Concat(s.queue)));
    }
  }

  lemma DropTidy(st: State, i: nat, now: int)
    requires i < |st.sessions| && Tidy(st) && st.sessions[i].conn.Some?
    ensures Tidy(DropRequest(st, i, false, now))
  {
    hide Tidy;
    var s := st.sessions[i];
    ReleaseTidy(st, i, s.(conn := None, timestamp := now), s.conn.value, Empty);
  }

  /** Closing a session tells the holder of its request, if there is one, and
      nobody else. */
  lemma CloseTells(st: State, i: nat, now: int)
    requires i < |st.sessions| && Distinct(st.sessions)
    ensures var s := st.sessions[i];
            CloseClient(st, i, now).out ==
              st.out + (if s.conn.Some? then [Answer(s.conn.value, Terminate, Some(s.uid))] else [])
    ensures Uids(CloseClient(st, i, now).sessions) == Uids(st.sessions) - {st.sessions[i].uid}
  {
    hide Uids;
    UidsRemove(st.sessions, i);
    if st.sessions[i].conn.Some? {
      var st1 := DropRequest(st, i, true, now);
      assert st1.sessions[..i] == st.sessions[..i] && st1.sessions[i + 1..] == st.sessions[i + 1..];
    }
  }

  lemma CloseTidy(st: State, i: nat, now: int)
    requires i < |st.sessions| && Distinct(st.sessions) && Tidy(st)
    ensures Tidy(CloseClient(st, i, now))
  {
    hide AllFinal, Uids, Distinct, CloseClient;
    var s := st.sessions[i];
    CloseTells(st, i, now);
    UidsIn(st.sessions, i);
    if s.conn.Some? {
      EmitEnd(Uids(st.sessions), st.out, Answer(s.conn.value, Terminate, Some(s.uid)));
    } else {
      Shrink(Uids(st.sessions), Uids(st.sessions) - {s.uid}, st.out);
      assert st.out + [] == st.out;
    }
  }

  lemma AnswerTidy(st: State, conn: Conn, body: Body)
    requires Tidy(st) && !body.Terminate?
    ensures Tidy(AnswerOn(st, conn, body, None))
  {
    hide AllFinal, Uids;
    Emit(Uids(st.sessions), st.out, Answer(conn, body, None));
  }

  lemma SetHttpTidy(st: State, i: nat, conn: Conn, now: int)
    requires i < |st.sessions| && Tidy(st)
    ensures Tidy(SetHttp(st, i, conn, now))
  {
    hide Tidy;
    var st1 := if st.sessions[i].conn.Some? then DropRequest(st, i, false, now) else st;
    if st.sessions[i].conn.Some? {
      DropTidy(st, i, now);
    }
    var st2 := Hold(st1, i, conn, now);
    PutTidy(st1, st2, i);
    FlushTidy(st2, i, now);
  }

  lemma PollTidy(st: State, i: nat, conn: Conn, m: Message, sends: seq<SendOutcome>, now: int)
    requires i < |st.sessions| && Inv(st) && Tidy(st)
    ensures Tidy(PollSession(st, i, conn, m, sends, now))
  {
    hide Tidy, SockOk, SetHttp, Send, SendAll, CloseClient;
    SetHttpTidy(st, i, conn, now);
    SetHttpKeeps(st, i, conn, now);
    var st1 := SetHttp(st, i, conn, now);
    var st2 := SendStanzas(st1, i, m.stanzas, sends);
    PutTidy(st1, st2, i);
    SendStanzasKeeps(st1, i, m.stanzas, sends);
    CloseTidy(st2, i, now);
  }

  lemma AddTidy(st: State, sid: nat, wait: int, host: Bytes, now: int)
    requires Tidy(st) && Numbered(st)
    ensures Tidy(AddSession(st, sid, wait, host, now))
  {
    hide NewSock;
    var st' := AddSession(st, sid, wait, host, now);
    forall k | 0 <= k < |st'.out| && Ends(st'.out[k]) ensures Final(Uids(st'.sessions), st'.out, k) {
      assert Final(Uids(st.sessions), st.out, k);
    }
  }

  lemma ConnectTidy(st: State, conn: Conn, m: Message, env: Env, now: int)
    requires Tidy(st) && Numbered(st)
    ensures Tidy(ConnectClient(st, conn, m, env, now))
  {
    hide Tidy, Numbered, AddSession;
    if Acceptable(m, env) {
      AddTidy(st, env.newSid, m.wait.value * 1000, m.to.value, now);
      AnswerTidy(AddSession(st, env.newSid, m.wait.value * 1000, m.to.value, now), conn, Created(env.newSid));
    } else {
      AnswerTidy(st, conn, Error(BadFormat));
      AnswerTidy(st, conn, Error(ConnectionFailed));
    }
  }

  lemma RequestTidy(st: State, conn: Conn, request: Request, env: Env, now: int)
    requires Inv(st) && Tidy(st)
    ensures Tidy(HandleRequest(st, conn, request, env, now))
  {
    hide Tidy, PollSession, ConnectClient, AnswerOn;
    var t := Target(st, request);
    if t < |st.sessions| {
      PollTidy(st, t, conn, request.message.value, env.sends, now);
    } else if request.Post? && request.message.Some? && request.message.value.sid.NoSid? {
      ConnectTidy(st, conn, request.message.value, env, now);
    } else {
      AnswerTidy(st, conn, StatusPage(st.count, st.maxCount));
      AnswerTidy(st, conn, Error(BadFormat));
      AnswerTidy(st, conn, Error(SidNotFound));
    }
  }

  lemma ClearTidy(st: State, conn: Conn, now: int)
    requires Inv(st) && Tidy(st)
    ensures Tidy(ClearHttp(st, conn, now))
  {
    hide AllFinal, Uids, SockOk;
    if conn in st.callbacks {
      var i, s := ClearIs(st, conn, now);
      hide ClearHttp;
      UidsPut(st.sessions, i, s);
      UidsIn(st.sessions, i);
      Emit(Uids(st.sessions), st.out, Lost(conn, Some(st.callbacks[conn])));
    }
  }

  lemma ReadTidy(st: State, i: nat, items: seq<StanzaEvent>, end: ReadEnd, now: int)
    requires i < |st.sessions| && Inv(st) && Tidy(st)
    ensures Tidy(ReadJabber(st, i, items, end, now))
  {
    hide Tidy, SockOk, FlushMessages, CloseClient;
    var s := AfterRead(st.sessions[i], items, end);
    StanzasKeepNames(st.sessions[i], items);
    CloseKeepsOk(st.sessions[i].sock);
    PutKeeps(st, i, s);
    PutTidy(st, Put(st, i, s), i);
    FlushKeeps(Put(st, i, s), i, now);
    FlushTidy(Put(st, i, s), i, now);
    CloseTidy(FlushMessages(Put(st, i, s), i, now), i, now);
  }

  lemma ReadyTidy(st: State, i: nat, error: int, sends: seq<SendOutcome>, now: int)
    requires i < |st.sessions| && Inv(st) && Tidy(st)
    ensures Tidy(XmppReady(st, i, error, sends, now))
  {
    hide Tidy, SockOk, Writable, CloseClient;
    var s := st.sessions[i].(sock := Writable(st.sessions[i].sock, error, sends));
    WritableKeepsOk(st.sessions[i].sock, error, sends);
    PutKeeps(st, i, s);
    PutTidy(st, Put(st, i, s), i);
    CloseTidy(Put(st, i, s), i, now);
  }

  lemma {:induction false} DropDueTidy(st: State, k: nat, now: int)
    requires k <= |st.sessions| && Tidy(st)
    ensures Tidy(DropDue(st, k, now))
    decreases |st.sessions| - k
  {
    hide Tidy;
    if k < |st.sessions| {
      if RequestDue(st.sessions[k], now) {
        DropTidy(st, k, now);
        DropDueTidy(DropRequest(st, k, false, now), k + 1, now);
      } else {
        DropDueTidy(st, k + 1, now);
      }
    }
  }

  lemma {:induction false} CloseAllTidy(st: State, uids: seq<Uid>, now: int)
    requires Inv(st) && Tidy(st)
    ensures Tidy(CloseAll(st, uids, now))
    decreases |uids|
  {
    hide Tidy, SockOk, CloseClient;
    if uids != [] {
      var i := IndexOfUid(st.sessions, uids[0]);
      if i < |st.sessions| {
        CloseTidy(st, i, now);
        CloseKeeps(st, i, now);
        CloseAllTidy(CloseClient(st, i, now), uids[1..], now);
      } else {
        CloseAllTidy(st, uids[1..], now);
      }
    }
  }

  lemma StepTidy(st: State, e: Event, now: int)
    requires Inv(st) && Tidy(st)
    ensures Tidy(Step(st, e, now))
  {
    hide Tidy, SockOk, HandleRequest, ClearHttp, ReadJabber, XmppReady, CloseClient, DropDue, CloseAll;
    match e
    case HttpRequest(conn, request, env) => RequestTidy(st, conn, request, env, now);
    case HttpClosed(conn) => ClearTidy(st, conn, now);
    case XmppData(u, items, end) =>
      if Live(st, u) {
        ReadTidy(st, IndexOfUid(st.sessions, u), items, end, now);
      }
    case XmppWritable(u, error, sends) =>
      if Live(st, u) {
        ReadyTidy(st, IndexOfUid(st.sessions, u), error, sends, now);
      }
    case XmppError(u) =>
      if Live(st, u) {
        CloseTidy(st, IndexOfUid(st.sessions, u), now);
      }
    case Tick =>
      DropDueTidy(st, 0, now);
      DropDueKeeps(st, 0, now);
      CloseAllTidy(DropDue(st, 0, now), ToClose(st.sessions, st.timeout, now), now);
  }

  lemma {:induction false} RunTidy(timeout: int, events: seq<Timed>)
    requires Possible(Initial(timeout), events)
    ensures Tidy(Run(Initial(timeout), events))
    decreases |events|
  {
    hide Step, Enabled;
    if events != [] {
      var init, last := events[..|events| - 1], events[|events| - 1];
      RunTidy(timeout, init);
      RunKeeps(timeout, init);
      hide Tidy, Inv;
      StepTidy(Run(Initial(timeout), init), last.event, last.now);
    }
  }

  /** In every possible run, whoever is told that a session has ended is told
      the truth and told last: that session is not live, and no later answer or
      loss belongs to it. */
  lemma TerminateIsFinal(timeout: int, events: seq<Timed>, k: nat)
    requires Possible(Initial(timeout), events)
    requires k < |Run(Initial(timeout), events).out| && Ends(Run(Initial(timeout), events).out[k])
    ensures var st := Run(Initial(timeout), events);
            && st.out[k].owner.Some?
            && !Live(st, st.out[k].owner.value)
            && (forall j | k < j < |st.out| :: st.out[j].owner != st.out[k].owner)
  {
    hide Run, Possible;
    RunTidy(timeout, events);
    var st := Run(Initial(timeout), events);
    assert Final(Uids(st.sessions), st.out, k);
    var i := IndexOfUid(st.sessions, st.out[k].owner.value);
    if i < |st.sessions| {
      UidsIn(st.sessions, i);
      assert false;
    }
  }

  // ----- what a request that is not a poll is answered with -----

  /** A request to create a session, with everything it must carry. */
  predicate AsksForSession(request: Request) {
    && request.Post? && request.message.Some? && request.message.value.sid.NoSid?
    && request.message.value.wait.Some? && request.message.value.to.Some? && request.message.value.hasRid
  }

  /** A poll as far as its form goes, whether or not its session exists. */
  predicate IsPoll(request: Request) {
    request.Post? && request.message.Some? && request.message.value.sid.Sid? && request.message.value.hasRid
  }

  /** The only thing a handler did was to answer its own request so. */
  predicate OnlyAnswers(st: State, st': State, conn: Conn, body: Body) {
    st' == st.(callbacks := st.callbacks - {conn}, out := st.out + [Answer(conn, body, None)])
  }

  /** A request is turned away, with nothing else changed, exactly for these
      reasons: `item-not-found` for a poll of no live session, `host-gone` when
      the XMPP side cannot be set up, `bad-request` for every other form. */
  lemma RejectedExact(st: State, conn: Conn, request: Request, env: Env, now: int)
    ensures var st' := HandleRequest(st, conn, request, env, now);
            && (OnlyAnswers(st, st', conn, Error(SidNotFound)) <==>
                  IsPoll(request) && forall s | s in st.sessions :: s.sid != request.message.value.sid.value)
            && (OnlyAnswers(st, st', conn, Error(ConnectionFailed)) <==>
                  AsksForSession(request) && !(env.parserOk && env.connectOk))
            && (OnlyAnswers(st, st', conn, Error(BadFormat)) <==>
                  !request.Get? && !IsPoll(request) && !AsksForSession(request))
  {
    hide PollSession, NewSock, OnlyAnswers, AnswerOn, AddSession;
    AnswerIs(st, conn, StatusPage(st.count, st.maxCount));
    AnswerIs(st, conn, Error(BadFormat));
    AnswerIs(st, conn, Error(SidNotFound));
    AnswerIs(st, conn, Error(ConnectionFailed));
    if IsPoll(request) {
      var m := request.message.value;
      var i := IndexOfSid(st.sessions, m.sid.value);
      if i < |st.sessions| {
        assert st.sessions[i] in st.sessions;
        PollIsNoError(st, i, conn, m, env.sends, now);
      }
    } else if AsksForSession(request) && env.parserOk && env.connectOk {
      CreatingAdds(st, conn, request.message.value, env, now);
      assert forall body :: OnlyAnswers(st, ConnectClient(st, conn, request.message.value, env, now), conn, body) ==>
                              |ConnectClient(st, conn, request.message.value, env, now).sessions| == |st.sessions| by {
        OnlyAnswersKeeps(st, ConnectClient(st, conn, request.message.value, env, now), conn);
      }
    }
  }

  lemma AnswerIs(st: State, conn: Conn, body: Body)
    ensures forall other :: OnlyAnswers(st, AnswerOn(st, conn, body, None), conn, other) <==> other == body
  {
    forall other | OnlyAnswers(st, AnswerOn(st, conn, body, None), conn, other) ensures other == body {
      assert (st.out + [Answer(conn, other, None)])[|st.out|] == (st.out + [Answer(conn, body, None)])[|st.out|];
    }
  }

  lemma OnlyAnswersKeeps(st: State, st': State, conn: Conn)
    ensures forall body :: OnlyAnswers(st, st', conn, body) ==> st'.sessions == st.sessions
  {
  }

  lemma CreatingAdds(st: State, conn: Conn, m: Message, env: Env, now: int)
    requires Acceptable(m, env)
    ensures var st' := ConnectClient(st, conn, m, env, now);
            && st'.out == st.out + [Answer(conn, Created(env.newSid), None)]
            && |st'.sessions| == |st.sessions| + 1 && st'.sessions[..|st.sessions|] == st.sessions
            && st'.sessions[|st.sessions|].sid == env.newSid
            && st'.sessions[|st.sessions|].sock == NewSock(m.to.value)
  {
    hide NewSock;
  }

  /** Serving a poll reports no error. */
  lemma PollIsNoError(st: State, i: nat, conn: Conn, m: Message, sends: seq<SendOutcome>, now: int)
    requires i < |st.sessions|
    ensures forall code :: !OnlyAnswers(st, PollSession(st, i, conn, m, sends, now), conn, Error(code))
  {
    hide Send, SendAll;
    var st' := PollSession(st, i, conn, m, sends, now);
    assert forall k | |st.out| <= k < |st'.out| && st'.out[k].Answer? :: !st'.out[k].body.Error?;
  }

  /** A session is created exactly when it is asked for in full and the XMPP side
      can be set up.  Its sid is fresh, is the one in the answer, and finds it; it
      is last in the list and every other session is left alone. */
  lemma CreatedExact(st: State, conn: Conn, request: Request, env: Env, now: int)
    requires Inv(st) && IndexOfSid(st.sessions, env.newSid) == |st.sessions|
    ensures var st' := HandleRequest(st, conn, request, env, now);
            |st'.sessions| > |st.sessions| <==> AsksForSession(request) && env.parserOk && env.connectOk
    ensures var st' := HandleRequest(st, conn, request, env, now);
            |st'.sessions| > |st.sessions| ==>
              && st'.out == st.out + [Answer(conn, Created(env.newSid), None)]
              && |st'.sessions| == |st.sessions| + 1 && st'.sessions[..|st.sessions|] == st.sessions
              && IndexOfSid(st'.sessions, env.newSid) == |st.sessions|
              && st'.sessions[|st.sessions|].sock.submitted == JabberHeader(request.message.value.to.value)
  {
    hide PollSession, NewSock, SockOk, ConnectClient, Inv;
    var t := Target(st, request);
    if t < |st.sessions| {
      PollCounts(st, t, conn, request.message.value, env.sends, now);
    } else if AsksForSession(request) {
      if env.parserOk && env.connectOk {
        NewestFound(st, conn, request, env, now);
      } else {
        NothingCreated(st, conn, request.message.value, env, now);
      }
    } else if request.Post? && request.message.Some? && request.message.value.sid.NoSid? {
      NothingCreated(st, conn, request.message.value, env, now);
    }
  }

  /** The creating case: the newest session is the one its sid finds. */
  lemma NewestFound(st: State, conn: Conn, request: Request, env: Env, now: int)
    requires Inv(st) && IndexOfSid(st.sessions, env.newSid) == |st.sessions|
    requires AsksForSession(request) && env.parserOk && env.connectOk
    ensures var st' := HandleRequest(st, conn, request, env, now);
            && st'.out == st.out + [Answer(conn, Created(env.newSid), None)]
            && |st'.sessions| == |st.sessions| + 1 && st'.sessions[..|st.sessions|] == st.sessions
            && IndexOfSid(st'.sessions, env.newSid) == |st.sessions|
            && st'.sessions[|st.sessions|].sock.submitted == JabberHeader(request.message.value.to.value)
  {
    hide NewSock, ConnectClient, Inv, JabberHeader;
    var m := request.message.value;
    NewSockOk(m.to.value);
    CreatingAdds(st, conn, m, env, now);
    RequestKeeps(st, conn, request, env, now);
    InvDistinct(HandleRequest(st, conn, request, env, now));
    IndexIs(HandleRequest(st, conn, request, env, now).sessions, |st.sessions|);
  }

  lemma InvDistinct(st: State)
    requires Inv(st)
    ensures Distinct(st.sessions)
  {
  }

  lemma NothingCreated(st: State, conn: Conn, m: Message, env: Env, now: int)
    requires !Acceptable(m, env)
    ensures ConnectClient(st, conn, m, env, now).sessions == st.sessions
  {
  }
}
