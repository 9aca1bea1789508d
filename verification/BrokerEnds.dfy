/** When a session ends: exactly which events end it, through whole runs. */
module BrokerEnds {
  import opened Common
  import opened SocketModel
  import opened BrokerModel
  import opened BrokerInvariant
  import opened BrokerPairing
  import opened BrokerSockets
  import opened BrokerTime

  /** The events that end live session `u`: a poll that asks for it; the end of
      the XMPP stream, a parse error, or an error or stop stanza; a connect that
      failed; an error on the socket; too long without a request. */
  predicate EndsBy(st: State, e: Event, now: int, u: Uid)
    requires Live(st, u)
  {
    match e
    case HttpRequest(_, request, _) => Polls(st, e, u) && request.message.value.terminate
    case HttpClosed(_) => false
    case XmppData(v, items, end) => v == u && (!end.NothingLeft? || ErrorOrStop in items)
    case XmppWritable(v, error, _) => v == u && Own(st, u).status == Connecting && error != 0
    case XmppError(v) => v == u
    case Tick => SessionDue(st.sessions[IndexOfUid(st.sessions, u)], st.timeout, now)
  }

  lemma {:induction false} AliveAfter(s: Session, items: seq<StanzaEvent>)
    ensures HandleStanzas(s, items).alive <==> s.alive && ErrorOrStop !in items
    decreases |items|
  {
    if items != [] {
      AliveAfter(HandleStanza(s, items[0]), items[1..]);
      assert items == [items[0]] + items[1..];
    }
  }

  lemma ReadEnds(st: State, i: nat, items: seq<StanzaEvent>, end: ReadEnd, now: int, u: Uid)
    requires Inv(st) && i < |st.sessions|
    requires st.sessions[i].alive && st.sessions[i].sock.status == Connected
    ensures Live(ReadJabber(st, i, items, end, now), u) <==>
              Live(st, u) && !(u == st.sessions[i].uid && (!end.NothingLeft? || ErrorOrStop in items))
  {
    hide FlushMessages, CloseClient, SockOk;
    var s := AfterRead(st.sessions[i], items, end);
    AliveAfter(st.sessions[i], items);
    StanzasKeepNames(st.sessions[i], items);
    var st1 := Put(st, i, s);
    PutSocket(st, st1, i, u);
    CloseKeepsOk(st.sessions[i].sock);
    PutKeeps(st, i, s);
    var st2 := FlushMessages(st1, i, now);
    FlushSocket(st1, i, now, u);
    FlushKeeps(st1, i, now);
    FlushSettles(st1, i, now);
    CloseSocketOf(st2, i, now, u);
    IndexIs(st.sessions, i);
  }

  lemma {:induction false} CloseAllEnds(st: State, uids: seq<Uid>, now: int, u: Uid)
    requires Inv(st)
    ensures Live(CloseAll(st, uids, now), u) <==> Live(st, u) && u !in uids
    decreases |uids|
  {
    hide SockOk, CloseClient;
    if uids != [] {
      assert uids == [uids[0]] + uids[1..];
      var i := IndexOfUid(st.sessions, uids[0]);
      if i < |st.sessions| {
        CloseSocketOf(st, i, now, u);
        CloseKeeps(st, i, now);
        CloseAllEnds(CloseClient(st, i, now), uids[1..], now, u);
      } else {
        CloseAllEnds(st, uids[1..], now, u);
      }
    }
  }

  lemma TickEnds(st: State, now: int, u: Uid)
    requires Inv(st) && Live(st, u)
    ensures Live(CheckTimeout(st, now), u) <==>
              !SessionDue(st.sessions[IndexOfUid(st.sessions, u)], st.timeout, now)
  {
    hide SockOk, DropDue, CloseAll, ToClose, SessionDue;
    var uids := ToClose(st.sessions, st.timeout, now);
    DropDueSocket(st, 0, now, u);
    DropDueKeeps(st, 0, now);
    CloseAllEnds(DropDue(st, 0, now), uids, now, u);
    ToCloseExact(st.sessions, st.timeout, now, IndexOfUid(st.sessions, u));
  }

  /** A handler ends a live session exactly when its event is one of those that
      end it. */
  lemma StepEnds(st: State, e: Event, now: int, u: Uid)
    requires Inv(st) && Quiet(st) && Enabled(st, e) && Live(st, u)
    ensures !Live(Step(st, e, now), u) <==> EndsBy(st, e, now, u)
  {
    hide HandleRequest, ClearHttp, ReadJabber, XmppReady, CloseClient, CheckTimeout, SockOk, Becomes;
    match e
    case HttpRequest(_, _, _) => RequestSocket(st, e, now, u);
    case HttpClosed(conn) => ClearSocket(st, conn, now, u);
    case XmppData(v, items, end) => ReadEnds(st, IndexOfUid(st.sessions, v), items, end, now, u);
    case XmppWritable(v, error, sends) => ReadySocket(st, IndexOfUid(st.sessions, v), error, sends, now, u);
    case XmppError(v) => CloseSocketOf(st, IndexOfUid(st.sessions, v), now, u);
    case Tick => TickEnds(st, now, u);
  }

  /** Some event of the run ended session `u` while it was live. */
  predicate Ended(st: State, events: seq<Timed>, u: Uid) {
    events != [] &&
    var init, last := events[..|events| - 1], events[|events| - 1];
    var before := Run(st, init);
    Ended(st, init, u) || (Live(before, u) && EndsBy(before, last.event, last.now, u))
  }

  /** In every possible run, a session that was created is over exactly when one
      of the events that end a session has happened to it. */
  lemma {:induction false} OverExact(timeout: int, events: seq<Timed>, u: Uid)
    requires Possible(Initial(timeout), events)
    ensures var st := Run(Initial(timeout), events);
            u < st.nextUid && !Live(st, u) <==> Ended(Initial(timeout), events, u)
    decreases |events|
  {
    hide Step, Enabled, EndsBy, SockAfter;
    if events != [] {
      var init, last := events[..|events| - 1], events[|events| - 1];
      var before := Run(Initial(timeout), init);
      RunKeeps(timeout, init);
      OverExact(timeout, init, u);
      hide Quiet;
      OverStep(before, last.event, last.now, u);
    }
  }

  lemma OverStep(st: State, e: Event, now: int, u: Uid)
    requires Inv(st) && Quiet(st) && Enabled(st, e)
    ensures var st' := Step(st, e, now);
            u < st'.nextUid && !Live(st', u) <==>
              (u < st.nextUid && !Live(st, u)) || (Live(st, u) && EndsBy(st, e, now, u))
  {
    hide Step, Enabled, EndsBy, SockAfter, Quiet, SockOk;
    if e.HttpRequest? && Creates(e.request, e.env) {
      CreateSocket(st, e, now);
      if u != st.nextUid {
        StepSocket(st, e, now, u);
      }
    } else {
      NumbersStay(st, e, now);
      StepSocket(st, e, now, u);
    }
    if Live(st, u) {
      StepEnds(st, e, now, u);
    }
  }
}
