/** Held connections and close callbacks over whole runs: they agree exactly as
    long as no request comes on a connection another session still holds. */
module BrokerPairing {
  import opened Common
  import opened SocketModel
  import opened BrokerModel
  import opened BrokerInvariant

  /** Session `u` holds the connection but would not be told that it closed. */
  predicate Orphan(st: State, u: Uid, conn: Conn) {
    Holds(st.sessions, u, conn) && !(conn in st.callbacks && st.callbacks[conn] == u)
  }

  lemma OrphanBreaks(st: State, u: Uid, conn: Conn)
    requires Orphan(st, u, conn)
    ensures !CallbacksComplete(st)
  {
    assert st.sessions[IndexOfUid(st.sessions, u)].conn.Some?;
  }

  lemma OrphanStaysFlush(st: State, i: nat, now: int, u: Uid, conn: Conn)
    requires i < |st.sessions| && st.sessions[i].uid != u && Orphan(st, u, conn)
    ensures Orphan(FlushMessages(st, i, now), u, conn)
  {
    var s := st.sessions[i].(queue := [], conn := None, timestamp := now);
    IndexAfterPut(st.sessions, i, s, u);
  }

  lemma OrphanStaysSend(st: State, i: nat, stanzas: seq<Stanza>, sends: seq<SendOutcome>, u: Uid, conn: Conn)
    requires i < |st.sessions| && st.sessions[i].uid != u && Orphan(st, u, conn)
    ensures Orphan(SendStanzas(st, i, stanzas, sends), u, conn)
  {
    IndexAfterPut(st.sessions, i, SendStanzas(st, i, stanzas, sends).sessions[i], u);
  }

  lemma OrphanStaysRemove(st: State, i: nat, u: Uid, conn: Conn)
    requires Distinct(st.sessions) && i < |st.sessions| && st.sessions[i].uid != u && Orphan(st, u, conn)
    ensures Orphan(Remove(st, i), u, conn)
  {
    RemoveHolds(st.sessions, i, u, conn);
  }

  lemma OrphanStaysClose(st: State, i: nat, now: int, u: Uid, conn: Conn)
    requires Inv(st) && i < |st.sessions| && st.sessions[i].uid != u && Orphan(st, u, conn)
    ensures Orphan(CloseClient(st, i, now), u, conn)
  {
    hide SockOk, Distinct;
    if st.sessions[i].conn.Some? {
      var st1 := DropRequest(st, i, true, now);
      DropKeeps(st, i, true, now);
      IndexAfterPut(st.sessions, i, st1.sessions[i], u);
      OrphanStaysRemove(st1, i, u, conn);
    } else {
      OrphanStaysRemove(st, i, u, conn);
    }
  }

  lemma SetHttpOrphans(st: State, i: nat, conn: Conn, now: int, u: Uid)
    requires i < |st.sessions| && st.sessions[i].uid != u && Holds(st.sessions, u, conn)
    ensures Orphan(SetHttp(st, i, conn, now), u, conn)
  {
    var st1 := if st.sessions[i].conn.Some? then DropRequest(st, i, false, now) else st;
    IndexAfterPut(st.sessions, i, st1.sessions[i], u);
    assert st1.sessions == st.sessions[i := st1.sessions[i]];
    var st2 := Hold(st1, i, conn, now);
    IndexAfterPut(st1.sessions, i, st2.sessions[i], u);
    OrphanStaysFlush(st2, i, now, u, conn);
  }

  lemma PollOrphans(st: State, i: nat, conn: Conn, m: Message, sends: seq<SendOutcome>, now: int, u: Uid)
    requires Inv(st) && i < |st.sessions| && st.sessions[i].uid != u && Holds(st.sessions, u, conn)
    ensures Orphan(PollSession(st, i, conn, m, sends, now), u, conn)
  {
    SetHttpKeeps(st, i, conn, now);
    SetHttpOrphans(st, i, conn, now, u);
    SetHttpNames(st, i, conn, now);
    var st1 := SetHttp(st, i, conn, now);
    OrphanStaysSend(st1, i, m.stanzas, sends, u, conn);
    SendStanzasKeeps(st1, i, m.stanzas, sends);
    if m.terminate {
      OrphanStaysClose(SendStanzas(st1, i, m.stanzas, sends), i, now, u, conn);
    }
  }

  lemma SetHttpNames(st: State, i: nat, conn: Conn, now: int)
    requires i < |st.sessions|
    ensures SetHttp(st, i, conn, now).sessions[i].uid == st.sessions[i].uid
  {
  }

  lemma AnswerOrphans(st: State, conn: Conn, body: Body, u: Uid)
    requires Holds(st.sessions, u, conn)
    ensures Orphan(AnswerOn(st, conn, body, None), u, conn)
  {
  }

  lemma ConnectOrphans(st: State, conn: Conn, m: Message, env: Env, now: int, u: Uid)
    requires Inv(st) && Holds(st.sessions, u, conn)
    ensures Orphan(ConnectClient(st, conn, m, env, now), u, conn)
  {
    hide SockOk, NewSock;
    if Acceptable(m, env) {
      var st1 := AddSession(st, env.newSid, m.wait.value * 1000, m.to.value, now);
      IndexAfterAppend(st.sessions, st1.sessions[|st.sessions|], u);
      AnswerOrphans(st1, conn, Created(env.newSid), u);
    }
  }

  /** A request on a connection held by session `u`, but meant for somebody
      else, leaves `u` holding a connection whose end it will not hear of. */
  lemma RequestOrphans(st: State, conn: Conn, request: Request, env: Env, now: int, j: nat)
    requires Inv(st) && j < |st.sessions| && j != Target(st, request) && st.sessions[j].conn == Some(conn)
    ensures Orphan(HandleRequest(st, conn, request, env, now), st.sessions[j].uid, conn)
  {
    var u := st.sessions[j].uid;
    IndexIs(st.sessions, j);
    var t := Target(st, request);
    if t < |st.sessions| {
      PollOrphans(st, t, conn, request.message.value, env.sends, now, u);
    } else if request.Post? && request.message.Some? && request.message.value.sid.NoSid? {
      ConnectOrphans(st, conn, request.message.value, env, now, u);
    }
  }

  /** Handling a request keeps holders and callbacks paired exactly when no
      session other than the one addressed holds the connection it came on. */
  lemma RequestPairingExact(st: State, conn: Conn, request: Request, env: Env, now: int)
    requires Inv(st) && Paired(st) && IndexOfSid(st.sessions, env.newSid) == |st.sessions|
    ensures Paired(HandleRequest(st, conn, request, env, now)) <==>
              NoOtherHolder(st.sessions, Target(st, request), conn)
  {
    RequestKeeps(st, conn, request, env, now);
    if !NoOtherHolder(st.sessions, Target(st, request), conn) {
      var j :| 0 <= j < |st.sessions| && j != Target(st, request) && st.sessions[j].conn == Some(conn);
      RequestOrphans(st, conn, request, env, now, j);
      OrphanBreaks(HandleRequest(st, conn, request, env, now), st.sessions[j].uid, conn);
    }
  }

  // ----- whole runs -----

  /** No request comes on a connection that a session other than its target
      still holds; in particular every run without pipelining is orderly. */
  ghost predicate Orderly(st: State, events: seq<Timed>) {
    events == [] ||
    var before := Run(st, events[..|events| - 1]);
    var e := events[|events| - 1].event;
    && Orderly(st, events[..|events| - 1])
    && (e.HttpRequest? ==> NoOtherHolder(before.sessions, Target(before, e.request), e.conn))
  }

  lemma {:induction false} RunKeeps(timeout: int, events: seq<Timed>)
    requires Possible(Initial(timeout), events)
    ensures var st := Run(Initial(timeout), events);
            Inv(st) && Quiet(st) && (Orderly(Initial(timeout), events) ==> Paired(st))
    decreases |events|
  {
    if events != [] {
      var init := events[..|events| - 1];
      var last := events[|events| - 1];
      RunKeeps(timeout, init);
      StepKeeps(Run(Initial(timeout), init), last.event, last.now);
    }
  }

  /** The largest number of sessions after any handler of the run. */
  function PeakSessions(st: State, events: seq<Timed>): int
    decreases |events|
  {
    if events == [] then |st.sessions|
    else Max(PeakSessions(st, events[..|events| - 1]), |Run(st, events).sessions|)
  }

  lemma DropDueCounts(st: State, k: nat, now: int)
    requires k <= |st.sessions|
    ensures DropDue(st, k, now).maxCount == st.maxCount
    decreases |st.sessions| - k
  {
    if k < |st.sessions| {
      DropDueCounts(if RequestDue(st.sessions[k], now) then DropRequest(st, k, false, now) else st, k + 1, now);
    }
  }

  lemma CloseAllCounts(st: State, uids: seq<Uid>, now: int)
    ensures CloseAll(st, uids, now).maxCount == st.maxCount
    ensures |CloseAll(st, uids, now).sessions| <= |st.sessions|
    decreases |uids|
  {
    if uids != [] {
      var i := IndexOfUid(st.sessions, uids[0]);
      CloseAllCounts(if i < |st.sessions| then CloseClient(st, i, now) else st, uids[1..], now);
    }
  }

  lemma StepCounts(st: State, e: Event, now: int)
    requires st.count == |st.sessions| <= st.maxCount
    ensures Step(st, e, now).maxCount == Max(st.maxCount, |Step(st, e, now).sessions|)
  {
    match e
    case HttpRequest(conn, request, env) => RequestCounts(st, conn, request, env, now);
    case XmppData(u, items, end) =>
      if Live(st, u) {
        ReadCounts(st, IndexOfUid(st.sessions, u), items, end, now);
      }
    case Tick =>
      DropDueCounts(st, 0, now);
      CloseAllCounts(DropDue(st, 0, now), ToClose(st.sessions, st.timeout, now), now);
    case _ =>
  }

  lemma ReadCounts(st: State, i: nat, items: seq<StanzaEvent>, end: ReadEnd, now: int)
    requires i < |st.sessions|
    ensures ReadJabber(st, i, items, end, now).maxCount == st.maxCount
    ensures |ReadJabber(st, i, items, end, now).sessions| <= |st.sessions|
  {
  }

  lemma RequestCounts(st: State, conn: Conn, request: Request, env: Env, now: int)
    requires st.count == |st.sessions| <= st.maxCount
    ensures var st' := HandleRequest(st, conn, request, env, now);
            st'.maxCount == Max(st.maxCount, |st'.sessions|)
  {
    hide PollSession, NewSock;
    if Target(st, request) < |st.sessions| {
      PollCounts(st, Target(st, request), conn, request.message.value, env.sends, now);
    }
  }

  lemma PollCounts(st: State, i: nat, conn: Conn, m: Message, sends: seq<SendOutcome>, now: int)
    requires i < |st.sessions|
    ensures PollSession(st, i, conn, m, sends, now).maxCount == st.maxCount
    ensures |PollSession(st, i, conn, m, sends, now).sessions| <= |st.sessions|
  {
    assert SetHttp(st, i, conn, now).maxCount == st.maxCount;
  }

  /** `client_count` is the number of live sessions and `max_client_count` the
      largest number there ever was. */
  lemma {:induction false} CountersExact(timeout: int, events: seq<Timed>)
    requires Possible(Initial(timeout), events)
    ensures var st := Run(Initial(timeout), events);
            st.count == |st.sessions| && st.maxCount == PeakSessions(Initial(timeout), events)
    decreases |events|
  {
    RunKeeps(timeout, events);
    if events != [] {
      var init := events[..|events| - 1];
      var last := events[|events| - 1];
      RunKeeps(timeout, init);
      CountersExact(timeout, init);
      StepCounts(Run(Initial(timeout), init), last.event, last.now);
    }
  }

  /** The connections that have closed during the run. */
  function ClosedConns(events: seq<Timed>): set<Conn> {
    if events == [] then {}
    else
      var e := events[|events| - 1].event;
      ClosedConns(events[..|events| - 1]) + (if e.HttpClosed? then {e.conn} else {})
  }

  /** Requests come on open connections only. */
  predicate RequestsOnOpen(events: seq<Timed>) {
    events == [] ||
    var e := events[|events| - 1].event;
    && RequestsOnOpen(events[..|events| - 1])
    && (e.HttpRequest? ==> e.conn !in ClosedConns(events[..|events| - 1]))
  }

  ghost predicate HeldIn(sessions: seq<Session>, allowed: set<Conn>) {
    forall i | 0 <= i < |sessions| && sessions[i].conn.Some? :: sessions[i].conn.value in allowed
  }

  /** From `st` to `st'` only connections in `allowed` are answered, and only
      those are held afterwards. */
  ghost predicate Within(st: State, st': State, allowed: set<Conn>) {
    && HeldIn(st'.sessions, allowed)
    && |st.out| <= |st'.out|
    && (forall k | |st.out| <= k < |st'.out| && st'.out[k].Answer? :: st'.out[k].conn in allowed)
  }

  lemma ReleaseWithin(st: State, i: nat, s: Session, body: Body, allowed: set<Conn>)
    requires i < |st.sessions| && st.sessions[i].conn.Some? && HeldIn(st.sessions, allowed) && s.conn == None
    ensures Within(st, AnswerOn(Put(st, i, s), st.sessions[i].conn.value, body, Some(s.uid)), allowed)
  {
  }

  lemma FlushWithin(st: State, i: nat, now: int, allowed: set<Conn>)
    requires i < |st.sessions| && HeldIn(st.sessions, allowed)
    ensures Within(st, FlushMessages(st, i, now), allowed)
  {
    var s := st.sessions[i];
    if s.conn.Some? && s.queue != [] {
      ReleaseWithin(st, i, s.(queue := [], conn := None, timestamp := now),
                    Messages(s.queue, Concat(s.queue)), allowed);
    }
  }

  lemma DropWithin(st: State, i: nat, terminate: bool, now: int, allowed: set<Conn>)
    requires i < |st.sessions| && st.sessions[i].conn.Some? && HeldIn(st.sessions, allowed)
    ensures Within(st, DropRequest(st, i, terminate, now), allowed)
  {
    ReleaseWithin(st, i, st.sessions[i].(conn := None, timestamp := now),
                  if terminate then Terminate else Empty, allowed);
  }

  lemma CloseWithin(st: State, i: nat, now: int, allowed: set<Conn>)
    requires i < |st.sessions| && HeldIn(st.sessions, allowed)
    ensures Within(st, CloseClient(st, i, now), allowed)
  {
    if st.sessions[i].conn.Some? {
      DropWithin(st, i, true, now, allowed);
    }
  }

  lemma SetHttpWithin(st: State, i: nat, conn: Conn, now: int, allowed: set<Conn>)
    requires i < |st.sessions| && HeldIn(st.sessions, allowed) && conn in allowed
    ensures Within(st, SetHttp(st, i, conn, now), allowed)
  {
    var st1 := if st.sessions[i].conn.Some? then DropRequest(st, i, false, now) else st;
    if st.sessions[i].conn.Some? {
      DropWithin(st, i, false, now, allowed);
    }
    FlushWithin(Hold(st1, i, conn, now), i, now, allowed);
  }

  lemma PollWithin(st: State, i: nat, conn: Conn, m: Message, sends: seq<SendOutcome>, now: int, allowed: set<Conn>)
    requires i < |st.sessions| && HeldIn(st.sessions, allowed) && conn in allowed
    ensures Within(st, PollSession(st, i, conn, m, sends, now), allowed)
  {
    SetHttpWithin(st, i, conn, now, allowed);
    var st1 := SendStanzas(SetHttp(st, i, conn, now), i, m.stanzas, sends);
    assert HeldIn(st1.sessions, allowed);
    CloseWithin(st1, i, now, allowed);
  }

  lemma ReadWithin(st: State, i: nat, items: seq<StanzaEvent>, end: ReadEnd, now: int, allowed: set<Conn>)
    requires i < |st.sessions| && HeldIn(st.sessions, allowed)
    ensures Within(st, ReadJabber(st, i, items, end, now), allowed)
  {
    StanzasKeepNames(st.sessions[i], items);
    var st1 := Put(st, i, AfterRead(st.sessions[i], items, end));
    FlushWithin(st1, i, now, allowed);
    CloseWithin(FlushMessages(st1, i, now), i, now, allowed);
  }

  lemma {:induction false} DropDueWithin(st: State, k: nat, now: int, allowed: set<Conn>)
    requires k <= |st.sessions| && HeldIn(st.sessions, allowed)
    ensures Within(st, DropDue(st, k, now), allowed)
    decreases |st.sessions| - k
  {
    if k < |st.sessions| {
      if RequestDue(st.sessions[k], now) {
        DropWithin(st, k, false, now, allowed);
        DropDueWithin(DropRequest(st, k, false, now), k + 1, now, allowed);
        DropDueExtends(DropRequest(st, k, false, now), k + 1, now);
      } else {
        DropDueWithin(st, k + 1, now, allowed);
      }
    }
  }

  lemma DropDueExtends(st: State, k: nat, now: int)
    requires k <= |st.sessions|
    ensures st.out <= DropDue(st, k, now).out
    decreases |st.sessions| - k
  {
    if k < |st.sessions| {
      DropDueExtends(if RequestDue(st.sessions[k], now) then DropRequest(st, k, false, now) else st, k + 1, now);
    }
  }

  lemma CloseAllExtends(st: State, uids: seq<Uid>, now: int)
    ensures st.out <= CloseAll(st, uids, now).out
    decreases |uids|
  {
    if uids != [] {
      var i := IndexOfUid(st.sessions, uids[0]);
      CloseAllExtends(if i < |st.sessions| then CloseClient(st, i, now) else st, uids[1..], now);
    }
  }

  lemma {:induction false} CloseAllWithin(st: State, uids: seq<Uid>, now: int, allowed: set<Conn>)
    requires HeldIn(st.sessions, allowed)
    ensures Within(st, CloseAll(st, uids, now), allowed)
    decreases |uids|
  {
    if uids != [] {
      var i := IndexOfUid(st.sessions, uids[0]);
      if i < |st.sessions| {
        CloseWithin(st, i, now, allowed);
        CloseAllWithin(CloseClient(st, i, now), uids[1..], now, allowed);
        CloseAllExtends(CloseClient(st, i, now), uids[1..], now);
      } else {
        CloseAllWithin(st, uids[1..], now, allowed);
      }
    }
  }

  lemma RequestWithin(st: State, conn: Conn, request: Request, env: Env, now: int, allowed: set<Conn>)
    requires HeldIn(st.sessions, allowed) && conn in allowed
    ensures Within(st, HandleRequest(st, conn, request, env, now), allowed)
  {
    hide PollSession, NewSock;
    var t := Target(st, request);
    if t < |st.sessions| {
      PollWithin(st, t, conn, request.message.value, env.sends, now, allowed);
    }
  }

  /** A handler answers nothing but the connections held when it starts and the
      one its request came on. */
  lemma StepWithin(st: State, e: Event, now: int, allowed: set<Conn>)
    requires HeldIn(st.sessions, allowed) && (e.HttpRequest? ==> e.conn in allowed)
    ensures Within(st, Step(st, e, now), allowed)
  {
    match e
    case HttpRequest(conn, request, env) => RequestWithin(st, conn, request, env, now, allowed);
    case HttpClosed(conn) =>
    case XmppData(u, items, end) =>
      if Live(st, u) {
        ReadWithin(st, IndexOfUid(st.sessions, u), items, end, now, allowed);
      }
    case XmppWritable(u, error, sends) =>
      if Live(st, u) {
        ReadyWithin(st, IndexOfUid(st.sessions, u), error, sends, now, allowed);
      }
    case XmppError(u) =>
      if Live(st, u) {
        CloseWithin(st, IndexOfUid(st.sessions, u), now, allowed);
      }
    case Tick =>
      DropDueWithin(st, 0, now, allowed);
      CloseAllWithin(DropDue(st, 0, now), ToClose(st.sessions, st.timeout, now), now, allowed);
      CloseAllExtends(DropDue(st, 0, now), ToClose(st.sessions, st.timeout, now), now);
  }

  lemma ReadyWithin(st: State, i: nat, error: int, sends: seq<SendOutcome>, now: int, allowed: set<Conn>)
    requires i < |st.sessions| && HeldIn(st.sessions, allowed)
    ensures Within(st, XmppReady(st, i, error, sends, now), allowed)
  {
    var s := st.sessions[i];
    var st1 := Put(st, i, s.(sock := Writable(s.sock, error, sends)));
    CloseWithin(st1, i, now, allowed);
  }

  /** In an orderly run no session ever holds a connection that has closed, so
      whatever handler comes next, it answers open connections only. */
  lemma {:induction false} ClosedNeverAnswered(timeout: int, events: seq<Timed>, next: Event, now: int)
    requires Possible(Initial(timeout), events) && Orderly(Initial(timeout), events) && RequestsOnOpen(events)
    requires next.HttpRequest? ==> next.conn !in ClosedConns(events)
    ensures var st := Run(Initial(timeout), events);
            && (forall i | 0 <= i < |st.sessions| && st.sessions[i].conn.Some? ::
                  st.sessions[i].conn.value !in ClosedConns(events))
            && (forall k | |st.out| <= k < |Step(st, next, now).out| && Step(st, next, now).out[k].Answer? ::
                  Step(st, next, now).out[k].conn !in ClosedConns(events))
    decreases |events|
  {
    hide Enabled, SockOk;
    var st := Run(Initial(timeout), events);
    if events != [] {
      var init := events[..|events| - 1];
      var last := events[|events| - 1];
      ClosedNeverAnswered(timeout, init, last.event, last.now);
      RunKeeps(timeout, init);
      var before := Run(Initial(timeout), init);
      if last.event.HttpClosed? {
        ClearReleases(before, last.event.conn, last.now);
      } else {
        var held := Held(before.sessions) + (if last.event.HttpRequest? then {last.event.conn} else {});
        StepWithin(before, last.event, last.now, held);
      }
    }
    StepWithin(st, next, now, Held(st.sessions) + (if next.HttpRequest? then {next.conn} else {}));
  }

  function Held(sessions: seq<Session>): set<Conn> {
    set i | 0 <= i < |sessions| && sessions[i].conn.Some? :: sessions[i].conn.value
  }

  /** Closing a connection makes its holder let go of it, and nobody else. */
  lemma ClearReleases(st: State, conn: Conn, now: int)
    requires Inv(st) && Paired(st)
    ensures var st' := ClearHttp(st, conn, now);
            && |st'.sessions| == |st.sessions|
            && (forall i | 0 <= i < |st.sessions| ::
                 st'.sessions[i].conn == if st.sessions[i].conn == Some(conn) then None else st.sessions[i].conn)
  {
    if conn in st.callbacks {
      assert Holds(st.sessions, st.callbacks[conn], conn);
    }
    forall i | 0 <= i < |st.sessions|
      ensures ClearHttp(st, conn, now).sessions[i].conn ==
              if st.sessions[i].conn == Some(conn) then None else st.sessions[i].conn
    {
      if st.sessions[i].conn == Some(conn) {
        IndexIs(st.sessions, i);
      }
    }
  }

  // ----- a run that breaks the pairing -----

  lemma RunSnoc(st: State, events: seq<Timed>, e: Timed)
    ensures Run(st, events + [e]) == Step(Run(st, events), e.event, e.now)
    ensures Possible(st, events + [e]) <==> Possible(st, events) && Enabled(Run(st, events), e.event)
  {
    hide Step, Enabled;
    assert (events + [e])[..|events|] == events;
  }

  function Creation(sid: nat, conn: Conn): Timed {
    Timed(0, HttpRequest(conn, Post(Some(Message(NoSid, true, Some(60), Some("host"), false, []))),
                         Env(sid, true, true, [])))
  }

  function Polling(sid: nat, conn: Conn): Timed {
    Timed(0, HttpRequest(conn, Post(Some(Message(Sid(sid), true, None, None, false, []))),
                         Env(0, true, true, [])))
  }

  lemma CreationAdds(st: State, sid: nat, conn: Conn)
    ensures var st' := Step(st, Creation(sid, conn).event, 0);
            && |st'.sessions| == |st.sessions| + 1 && st'.sessions[..|st.sessions|] == st.sessions
            && st'.sessions[|st.sessions|].uid == st.nextUid && st'.nextUid == st.nextUid + 1
            && st'.sessions[|st.sessions|].sid == sid && st'.sessions[|st.sessions|].conn == None
            && st'.sessions[|st.sessions|].queue == []
            && st'.callbacks == st.callbacks - {conn}
  {
    hide NewSock;
  }

  lemma PollingHolds(st: State, sid: nat, conn: Conn)
    requires IndexOfSid(st.sessions, sid) < |st.sessions|
    requires var s := st.sessions[IndexOfSid(st.sessions, sid)]; s.conn == None && s.queue == []
    ensures var st' := Step(st, Polling(sid, conn).event, 0);
            var i := IndexOfSid(st.sessions, sid);
            && |st'.sessions| == |st.sessions|
            && (forall j | 0 <= j < |st.sessions| && j != i :: st'.sessions[j] == st.sessions[j])
            && st'.sessions[i].uid == st.sessions[i].uid && st'.sessions[i].sid == sid
            && st'.sessions[i].conn == Some(conn) && st'.sessions[i].queue == []
            && st'.callbacks == st.callbacks[conn := st.sessions[i].uid]
  {
    hide Send, SendAll;
  }

  /** Two sessions, then a poll for each of them on connection 7. */
  function PipelinedRun(): seq<Timed> {
    [] + [Creation(1, 5)] + [Creation(2, 6)] + [Polling(1, 7)] + [Polling(2, 7)]
  }

  /** Without that discipline the property fails: in a possible run that polls
      for two sessions on one connection, the first of them is left holding the
      connection without its callback, and still holds it once it has closed. */
  lemma PipeliningDangles(timeout: int)
    ensures Possible(Initial(timeout), PipelinedRun())
    ensures !Paired(Run(Initial(timeout), PipelinedRun()))
    ensures var closing := PipelinedRun() + [Timed(0, HttpClosed(7))];
            var st := Run(Initial(timeout), closing);
            Possible(Initial(timeout), closing) && Holds(st.sessions, 0, 7) && 7 !in st.callbacks
  {
    hide Step, Run, Possible;
    var st0 := Initial(timeout);
    var e1 := [] + [Creation(1, 5)];
    var e2 := e1 + [Creation(2, 6)];
    var e3 := e2 + [Polling(1, 7)];
    var e4 := e3 + [Polling(2, 7)];
    FirstRun(timeout);
    RunSnoc(st0, [], Creation(1, 5));
    CreationAdds(st0, 1, 5);
    RunSnoc(st0, e1, Creation(2, 6));
    CreationAdds(Run(st0, e1), 2, 6);
    RunSnoc(st0, e2, Polling(1, 7));
    var st2 := Run(st0, e2);
    assert st2.sessions[0] == st2.sessions[..1][0] == Run(st0, e1).sessions[0];
    PollingHolds(st2, 1, 7);
    RunSnoc(st0, e3, Polling(2, 7));
    var st3 := Run(st0, e3);
    assert st3.sessions[1] == st2.sessions[1];
    PollingHolds(st3, 2, 7);
    var st4 := Run(st0, e4);
    assert st4.sessions[0] == st3.sessions[0];
    assert st4.callbacks[7] == 1;
    RunSnoc(st0, e4, Timed(0, HttpClosed(7)));
    ClosingLeaves(st4, 0, 7, 0);
  }

  lemma FirstRun(timeout: int)
    ensures Run(Initial(timeout), []) == Initial(timeout) && Possible(Initial(timeout), [])
  {
  }

  /** A connection that closes is let go of by the session its callback points
      to, and by no other. */
  lemma ClosingLeaves(st: State, u: Uid, conn: Conn, now: int)
    requires conn in st.callbacks && st.callbacks[conn] != u && Holds(st.sessions, u, conn)
    ensures Enabled(st, HttpClosed(conn))
    ensures var st' := Step(st, HttpClosed(conn), now);
            Holds(st'.sessions, u, conn) && conn !in st'.callbacks
  {
    var i := IndexOfUid(st.sessions, st.callbacks[conn]);
    if i < |st.sessions| {
      IndexAfterPut(st.sessions, i, st.sessions[i].(conn := None, timestamp := now), u);
    }
  }
}
