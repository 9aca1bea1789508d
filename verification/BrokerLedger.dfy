/** Exactly-once answers over whole runs: every request handed to the broker is
    answered once, or still held by one session, or lost to the end of its
    connection.  Counted for one connection, or for all of them together. */
module BrokerLedger {
  import opened Common
  import opened SocketModel
  import opened BrokerModel
  import opened BrokerInvariant
  import opened BrokerPairing

  /** `None` stands for all connections. */
  predicate Selects(c: Option<Conn>, conn: Conn) {
    c.None? || c.value == conn
  }

  function OutCount(out: seq<Out>, c: Option<Conn>): nat {
    if out == [] then 0
    else OutCount(out[..|out| - 1], c) + (if Selects(c, out[|out| - 1].conn) then 1 else 0)
  }

  function Answers(out: seq<Out>, c: Option<Conn>): nat {
    if out == [] then 0
    else
      var last := out[|out| - 1];
      Answers(out[..|out| - 1], c) + (if last.Answer? && Selects(c, last.conn) then 1 else 0)
  }

  function LostRequests(out: seq<Out>, c: Option<Conn>): nat {
    if out == [] then 0
    else
      var last := out[|out| - 1];
      LostRequests(out[..|out| - 1], c) + (if last.Lost? && Selects(c, last.conn) then 1 else 0)
  }

  function Weight(s: Session, c: Option<Conn>): nat {
    if s.conn.Some? && Selects(c, s.conn.value) then 1 else 0
  }

  /** The number of sessions that hold a selected connection. */
  function Holding(sessions: seq<Session>, c: Option<Conn>): nat {
    if sessions == [] then 0 else Weight(sessions[0], c) + Holding(sessions[1..], c)
  }

  function Requests(events: seq<Timed>, c: Option<Conn>): nat {
    if events == [] then 0
    else
      var e := events[|events| - 1].event;
      Requests(events[..|events| - 1], c) + (if e.HttpRequest? && Selects(c, e.conn) then 1 else 0)
  }

  lemma {:induction false} OutCountSplits(out: seq<Out>, c: Option<Conn>)
    ensures OutCount(out, c) == Answers(out, c) + LostRequests(out, c)
  {
    if out != [] {
      OutCountSplits(out[..|out| - 1], c);
    }
  }

  lemma OutCountSnoc(out: seq<Out>, o: Out, c: Option<Conn>)
    ensures OutCount(out + [o], c) == OutCount(out, c) + (if Selects(c, o.conn) then 1 else 0)
  {
    assert (out + [o])[..|out|] == out;
  }

  lemma {:induction false} HoldingSplit(a: seq<Session>, b: seq<Session>, c: Option<Conn>)
    ensures Holding(a + b, c) == Holding(a, c) + Holding(b, c)
  {
    if a == [] {
      assert a + b == b;
    } else {
      HoldingSplit(a[1..], b, c);
      assert (a + b)[1..] == a[1..] + b;
    }
  }

  lemma HoldingAt(sessions: seq<Session>, i: nat, c: Option<Conn>)
    requires i < |sessions|
    ensures Holding(sessions, c) ==
              Holding(sessions[..i], c) + Weight(sessions[i], c) + Holding(sessions[i + 1..], c)
  {
    HoldingSplit(sessions[..i], sessions[i..], c);
    assert sessions[..i] + sessions[i..] == sessions;
    assert sessions[i..][1..] == sessions[i + 1..];
  }

  lemma HoldingPut(sessions: seq<Session>, i: nat, s: Session, c: Option<Conn>)
    requires i < |sessions|
    ensures Holding(sessions[i := s], c) == Holding(sessions, c) - Weight(sessions[i], c) + Weight(s, c)
  {
    HoldingAt(sessions, i, c);
    HoldingAt(sessions[i := s], i, c);
    assert sessions[i := s][..i] == sessions[..i];
    assert sessions[i := s][i + 1..] == sessions[i + 1..];
  }

  lemma HoldingRemove(sessions: seq<Session>, i: nat, c: Option<Conn>)
    requires i < |sessions|
    ensures Holding(sessions[..i] + sessions[i + 1..], c) == Holding(sessions, c) - Weight(sessions[i], c)
  {
    HoldingAt(sessions, i, c);
    HoldingSplit(sessions[..i], sessions[i + 1..], c);
  }

  /** Everything accounted for: answered, lost, or still held. */
  function Balance(st: State, c: Option<Conn>): nat {
    OutCount(st.out, c) + Holding(st.sessions, c)
  }

  function One(c: Option<Conn>, conn: Conn): nat {
    if Selects(c, conn) then 1 else 0
  }

  lemma PutBalance(st: State, i: nat, s: Session, c: Option<Conn>)
    requires i < |st.sessions| && s.conn == st.sessions[i].conn
    ensures Balance(Put(st, i, s), c) == Balance(st, c)
  {
    HoldingPut(st.sessions, i, s, c);
  }

  lemma ReleaseBalance(st: State, i: nat, s: Session, body: Body, c: Option<Conn>)
    requires i < |st.sessions| && st.sessions[i].conn.Some? && s.conn == None
    ensures Balance(AnswerOn(Put(st, i, s), st.sessions[i].conn.value, body, Some(s.uid)), c) == Balance(st, c)
  {
    HoldingPut(st.sessions, i, s, c);
    OutCountSnoc(st.out, Answer(st.sessions[i].conn.value, body, Some(s.uid)), c);
  }

  lemma FlushBalance(st: State, i: nat, now: int, c: Option<Conn>)
    requires i < |st.sessions|
    ensures Balance(FlushMessages(st, i, now), c) == Balance(st, c)
  {
    var s := st.sessions[i];
    if s.conn.Some? && s.queue != [] {
      ReleaseBalance(st, i, s.(queue := [], conn := None, timestamp := now), Messages(s.queue, Concat(s.queue)), c);
    }
  }

  lemma DropBalance(st: State, i: nat, terminate: bool, now: int, c: Option<Conn>)
    requires i < |st.sessions| && st.sessions[i].conn.Some?
    ensures Balance(DropRequest(st, i, terminate, now), c) == Balance(st, c)
  {
    ReleaseBalance(st, i, st.sessions[i].(conn := None, timestamp := now), if terminate then Terminate else Empty, c);
  }

  lemma CloseBalance(st: State, i: nat, now: int, c: Option<Conn>)
    requires i < |st.sessions|
    ensures Balance(CloseClient(st, i, now), c) == Balance(st, c)
  {
    if st.sessions[i].conn.Some? {
      DropBalance(st, i, true, now, c);
      HoldingRemove(DropRequest(st, i, true, now).sessions, i, c);
    } else {
      HoldingRemove(st.sessions, i, c);
    }
  }

  lemma AnswerBalance(st: State, conn: Conn, body: Body, c: Option<Conn>)
    ensures Balance(AnswerOn(st, conn, body, None), c) == Balance(st, c) + One(c, conn)
  {
    OutCountSnoc(st.out, Answer(conn, body, None), c);
  }

  lemma SetHttpBalance(st: State, i: nat, conn: Conn, now: int, c: Option<Conn>)
    requires i < |st.sessions|
    ensures Balance(SetHttp(st, i, conn, now), c) == Balance(st, c) + One(c, conn)
  {
    var st1 := if st.sessions[i].conn.Some? then DropRequest(st, i, false, now) else st;
    if st.sessions[i].conn.Some? {
      DropBalance(st, i, false, now, c);
    }
    HoldingPut(st1.sessions, i, st1.sessions[i].(conn := Some(conn), timestamp := now), c);
    FlushBalance(Hold(st1, i, conn, now), i, now, c);
  }

  lemma PollBalance(st: State, i: nat, conn: Conn, m: Message, sends: seq<SendOutcome>, now: int, c: Option<Conn>)
    requires i < |st.sessions|
    ensures Balance(PollSession(st, i, conn, m, sends, now), c) == Balance(st, c) + One(c, conn)
  {
    hide Send, SendAll;
    SetHttpBalance(st, i, conn, now, c);
    var st1 := SetHttp(st, i, conn, now);
    var st2 := SendStanzas(st1, i, m.stanzas, sends);
    PutBalance(st1, i, st2.sessions[i], c);
    if m.terminate {
      CloseBalance(st2, i, now, c);
    }
  }

  lemma ConnectBalance(st: State, conn: Conn, m: Message, env: Env, now: int, c: Option<Conn>)
    ensures Balance(ConnectClient(st, conn, m, env, now), c) == Balance(st, c) + One(c, conn)
  {
    hide NewSock;
    if Acceptable(m, env) {
      var st1 := AddSession(st, env.newSid, m.wait.value * 1000, m.to.value, now);
      var s := st1.sessions[|st.sessions|];
      HoldingSplit(st.sessions, [s], c);
      assert Holding([s], c) == Weight(s, c) + Holding([s][1..], c);
      AnswerBalance(st1, conn, Created(env.newSid), c);
    } else {
      AnswerBalance(st, conn, Error(BadFormat), c);
      AnswerBalance(st, conn, Error(ConnectionFailed), c);
    }
  }

  lemma RequestBalance(st: State, conn: Conn, request: Request, env: Env, now: int, c: Option<Conn>)
    ensures Balance(HandleRequest(st, conn, request, env, now), c) == Balance(st, c) + One(c, conn)
  {
    hide PollSession, ConnectClient;
    var t := Target(st, request);
    if t < |st.sessions| {
      PollBalance(st, t, conn, request.message.value, env.sends, now, c);
    } else if request.Post? && request.message.Some? && request.message.value.sid.NoSid? {
      ConnectBalance(st, conn, request.message.value, env, now, c);
    } else {
      AnswerBalance(st, conn, StatusPage(st.count, st.maxCount), c);
      AnswerBalance(st, conn, Error(BadFormat), c);
      AnswerBalance(st, conn, Error(SidNotFound), c);
    }
  }

  /** A closing connection takes exactly the request its callback stands for. */
  lemma ClearBalance(st: State, conn: Conn, now: int, c: Option<Conn>)
    requires Inv(st)
    ensures Balance(ClearHttp(st, conn, now), c) == Balance(st, c)
  {
    if conn in st.callbacks {
      assert Holds(st.sessions, st.callbacks[conn], conn);
      var i := IndexOfUid(st.sessions, st.callbacks[conn]);
      HoldingPut(st.sessions, i, st.sessions[i].(conn := None, timestamp := now), c);
      OutCountSnoc(st.out, Lost(conn, Some(st.callbacks[conn])), c);
    }
  }

  lemma ReadBalance(st: State, i: nat, items: seq<StanzaEvent>, end: ReadEnd, now: int, c: Option<Conn>)
    requires i < |st.sessions|
    ensures Balance(ReadJabber(st, i, items, end, now), c) == Balance(st, c)
  {
    var s := AfterRead(st.sessions[i], items, end);
    StanzasKeepNames(st.sessions[i], items);
    PutBalance(st, i, s, c);
    FlushBalance(Put(st, i, s), i, now, c);
    CloseBalance(FlushMessages(Put(st, i, s), i, now), i, now, c);
  }

  lemma ReadyBalance(st: State, i: nat, error: int, sends: seq<SendOutcome>, now: int, c: Option<Conn>)
    requires i < |st.sessions|
    ensures Balance(XmppReady(st, i, error, sends, now), c) == Balance(st, c)
  {
    hide Writable;
    var s := st.sessions[i];
    var s' := s.(sock := Writable(s.sock, error, sends));
    PutBalance(st, i, s', c);
    CloseBalance(Put(st, i, s'), i, now, c);
  }

  lemma {:induction false} DropDueBalance(st: State, k: nat, now: int, c: Option<Conn>)
    requires k <= |st.sessions|
    ensures Balance(DropDue(st, k, now), c) == Balance(st, c)
    decreases |st.sessions| - k
  {
    if k < |st.sessions| {
      if RequestDue(st.sessions[k], now) {
        DropBalance(st, k, false, now, c);
        DropDueBalance(DropRequest(st, k, false, now), k + 1, now, c);
      } else {
        DropDueBalance(st, k + 1, now, c);
      }
    }
  }

  lemma {:induction false} CloseAllBalance(st: State, uids: seq<Uid>, now: int, c: Option<Conn>)
    ensures Balance(CloseAll(st, uids, now), c) == Balance(st, c)
    decreases |uids|
  {
    if uids != [] {
      var i := IndexOfUid(st.sessions, uids[0]);
      if i < |st.sessions| {
        CloseBalance(st, i, now, c);
        CloseAllBalance(CloseClient(st, i, now), uids[1..], now, c);
      } else {
        CloseAllBalance(st, uids[1..], now, c);
      }
    }
  }

  /** Each handler accounts for exactly the request it is given. */
  lemma StepBalance(st: State, e: Event, now: int, c: Option<Conn>)
    requires Inv(st)
    ensures Balance(Step(st, e, now), c) == Balance(st, c) + (if e.HttpRequest? then One(c, e.conn) else 0)
  {
    hide HandleRequest, ClearHttp, ReadJabber, XmppReady, CloseClient;
    match e
    case HttpRequest(conn, request, env) => RequestBalance(st, conn, request, env, now, c);
    case HttpClosed(conn) => ClearBalance(st, conn, now, c);
    case XmppData(u, items, end) =>
      if Live(st, u) {
        ReadBalance(st, IndexOfUid(st.sessions, u), items, end, now, c);
      }
    case XmppWritable(u, error, sends) =>
      if Live(st, u) {
        ReadyBalance(st, IndexOfUid(st.sessions, u), error, sends, now, c);
      }
    case XmppError(u) =>
      if Live(st, u) {
        CloseBalance(st, IndexOfUid(st.sessions, u), now, c);
      }
    case Tick =>
      DropDueBalance(st, 0, now, c);
      CloseAllBalance(DropDue(st, 0, now), ToClose(st.sessions, st.timeout, now), now, c);
  }

  /** Over every possible run, pipelined or not: the requests handed in are the
      answers sent plus the requests held plus the requests lost to a closing
      connection, on each connection and in total. */
  lemma {:induction false} LedgerBalances(timeout: int, events: seq<Timed>, c: Option<Conn>)
    requires Possible(Initial(timeout), events)
    ensures var st := Run(Initial(timeout), events);
            Requests(events, c) == Answers(st.out, c) + Holding(st.sessions, c) + LostRequests(st.out, c)
    decreases |events|
  {
    var st := Run(Initial(timeout), events);
    OutCountSplits(st.out, c);
    if events != [] {
      var init := events[..|events| - 1];
      var last := events[|events| - 1];
      var before := Run(Initial(timeout), init);
      LedgerBalances(timeout, init, c);
      OutCountSplits(before.out, c);
      RunKeeps(timeout, init);
      StepBalance(before, last.event, last.now, c);
    }
  }

  // ----- without pipelining -----

  /** Every request comes on a connection whose earlier requests are all answered. */
  ghost predicate NoPipelining(st: State, events: seq<Timed>) {
    events == [] ||
    var init := events[..|events| - 1];
    var e := events[|events| - 1].event;
    && NoPipelining(st, init)
    && (e.HttpRequest? ==> Requests(init, Some(e.conn)) == Answers(Run(st, init).out, Some(e.conn)))
  }

  lemma HolderCounts(sessions: seq<Session>, i: nat, conn: Conn)
    requires i < |sessions| && sessions[i].conn == Some(conn)
    ensures Holding(sessions, Some(conn)) >= 1
  {
    HoldingAt(sessions, i, Some(conn));
  }

  /** Runs without pipelining are orderly, hence holders and callbacks stay
      paired, and no connection ever has more than one request outstanding. */
  lemma {:induction false} NoPipeliningPairs(timeout: int, events: seq<Timed>)
    requires Possible(Initial(timeout), events) && NoPipelining(Initial(timeout), events)
    ensures Orderly(Initial(timeout), events)
    ensures Paired(Run(Initial(timeout), events))
    ensures forall conn :: Holding(Run(Initial(timeout), events).sessions, Some(conn)) <= 1
    decreases |events|
  {
    RunKeeps(timeout, events);
    if events != [] {
      var init := events[..|events| - 1];
      var last := events[|events| - 1];
      var before := Run(Initial(timeout), init);
      NoPipeliningPairs(timeout, init);
      RunKeeps(timeout, init);
      if last.event.HttpRequest? {
        LedgerBalances(timeout, init, Some(last.event.conn));
        forall j | 0 <= j < |before.sessions| ensures before.sessions[j].conn != Some(last.event.conn) {
          if before.sessions[j].conn == Some(last.event.conn) {
            HolderCounts(before.sessions, j, last.event.conn);
          }
        }
      }
    }
    forall conn ensures Holding(Run(Initial(timeout), events).sessions, Some(conn)) <= 1 {
      PairedHoldsOnce(Run(Initial(timeout), events), conn);
    }
  }

  lemma NoHolder(sessions: seq<Session>, conn: Conn)
    requires forall i | 0 <= i < |sessions| :: sessions[i].conn != Some(conn)
    ensures Holding(sessions, Some(conn)) == 0
  {
  }

  /** In a paired state each connection is held by at most one session. */
  lemma PairedHoldsOnce(st: State, conn: Conn)
    requires Inv(st) && Paired(st)
    ensures Holding(st.sessions, Some(conn)) <= 1
  {
    hide Holding, SockOk;
    if i :| 0 <= i < |st.sessions| && st.sessions[i].conn == Some(conn) {
      OneHolder(st.sessions, i, conn);
    } else {
      NoHolder(st.sessions, conn);
    }
  }

  lemma OneHolder(sessions: seq<Session>, i: nat, conn: Conn)
    requires i < |sessions| && forall j | 0 <= j < |sessions| && j != i :: sessions[j].conn != Some(conn)
    ensures Holding(sessions, Some(conn)) <= 1
  {
    HoldingAt(sessions, i, Some(conn));
    NoHolder(sessions[..i], conn);
    NoHolder(sessions[i + 1..], conn);
  }
}
