/** What the machines of the sessions add up to over whole runs: the hold time a
    client asked for is the one it gets, the text sent is the text received, and
    every answer has its reason and comes no sooner than that. */
module BrokerPromises {
  import opened Common
  import opened SocketModel
  import opened BrokerModel
  import opened BrokerInvariant
  import opened BrokerPairing
  import opened BrokerSockets
  import opened BrokerDelivery
  import opened BrokerReact
  import BT = BrokerTime

  lemma CarryOver(st: State, st': State, u: Uid, r: Reaction)
    requires Becoming(st, st', u, r)
    ensures RecordOf(st', u) == r.next && (Live(st', u) <==> r.next.Some?)
    ensures Spoken(st'.out, u) == Spoken(st.out, u) + r.said
  {
  }

  /** One event of a run, for one session: created by it, reacting to it, or not
      there for it. */
  lemma RunReacts(timeout: int, events: seq<Timed>, u: Uid)
    requires Possible(Initial(timeout), events) && events != []
    ensures var init, last := events[..|events| - 1], events[|events| - 1];
            var before, after := Run(Initial(timeout), init), Run(Initial(timeout), events);
            && Possible(Initial(timeout), init) && Inv(before) && Quiet(before) && Enabled(before, last.event)
            && (if last.event.HttpRequest? && Creates(last.event.request, last.event.env) && u == before.nextUid then
                  var m := last.event.request.message.value;
                  && !Live(before, u)
                  && RecordOf(after, u) == Some(Session(u, last.event.env.newSid, None, [], true, last.now,
                                                        1000 * m.wait.value, NewSock(m.to.value)))
                  && Spoken(after.out, u) == Spoken(before.out, u)
                else if Live(before, u) then
                  var r := React(RecordOf(before, u).value, ViewOf(before, last.event, u), before.timeout, last.now);
                  RecordOf(after, u) == r.next && Spoken(after.out, u) == Spoken(before.out, u) + r.said
                else
                  RecordOf(after, u) == None && Spoken(after.out, u) == Spoken(before.out, u))
  {
    hide Step, Enabled, React, Becoming, NewSock, ViewOf;
    var init, last := events[..|events| - 1], events[|events| - 1];
    var before, after := Run(Initial(timeout), init), Run(Initial(timeout), events);
    RunKeeps(timeout, init);
    NotYet(before);
    hide Inv;
    assert Spoken(before.out, u) + [] == Spoken(before.out, u);
    if last.event.HttpRequest? && Creates(last.event.request, last.event.env) && u == before.nextUid {
      var m := last.event.request.message.value;
      StepCreates(before, last.event, last.now);
      CarryOver(before, after, u, Reaction(Some(Session(u, last.event.env.newSid, None, [], true, last.now,
                                                        1000 * m.wait.value, NewSock(m.to.value))), []));
    } else if Live(before, u) {
      StepReacts(before, last.event, last.now, u);
      CarryOver(before, after, u,
                React(RecordOf(before, u).value, ViewOf(before, last.event, u), before.timeout, last.now));
    } else {
      StepSilent(before, last.event, last.now, u);
      CarryOver(before, after, u, Reaction(None, []));
    }
  }

  lemma NotYet(st: State)
    requires Inv(st)
    ensures !Live(st, st.nextUid)
  {
  }

  // ----- the hold time -----

  /** The request that created session `u`. */
  function Asked(st: State, events: seq<Timed>, u: Uid): Option<Message> {
    if events == [] then None
    else
      var init, e := events[..|events| - 1], events[|events| - 1].event;
      if e.HttpRequest? && Creates(e.request, e.env) && u == Run(st, init).nextUid
      then e.request.message
      else Asked(st, init, u)
  }

  lemma ReactKeepsNames(s: Session, view: View, timeout: int, now: int)
    ensures var next := React(s, view, timeout, now).next;
            next.Some? ==> next.value.uid == s.uid && next.value.sid == s.sid && next.value.wait == s.wait
  {
  }

  /** The hold time of a live session is the `wait` of the request that created
      it, in milliseconds. */
  lemma {:induction false} WaitExact(timeout: int, events: seq<Timed>, u: Uid)
    requires Possible(Initial(timeout), events) && Live(Run(Initial(timeout), events), u)
    ensures var asked := Asked(Initial(timeout), events, u);
            && asked.Some? && asked.value.wait.Some?
            && RecordOf(Run(Initial(timeout), events), u).value.wait == 1000 * asked.value.wait.value
    decreases |events|
  {
    hide Step, Enabled, React, NewSock, ViewOf;
    if events != [] {
      var init, last := events[..|events| - 1], events[|events| - 1];
      var before := Run(Initial(timeout), init);
      RunReacts(timeout, events, u);
      hide Inv;
      if last.event.HttpRequest? && Creates(last.event.request, last.event.env) && u == before.nextUid {
      } else {
        ReactKeepsNames(RecordOf(before, u).value, ViewOf(before, last.event, u), before.timeout, last.now);
        WaitExact(timeout, init, u);
      }
    }
  }

  // ----- the text that is sent -----

  function TextIn(o: Out, u: Uid): Bytes {
    if o.Answer? && o.owner == Some(u) && o.body.Messages? then o.body.text else []
  }

  /** The texts of all message bodies sent to the client of session `u`. */
  function DeliveredText(out: seq<Out>, u: Uid): Bytes {
    if out == [] then [] else DeliveredText(out[..|out| - 1], u) + TextIn(out[|out| - 1], u)
  }

  /** A message body says what its stanzas say. */
  predicate Truthful(o: Out) {
    o.Answer? && o.body.Messages? ==> o.body.text == Concat(o.body.stanzas)
  }

  lemma ReactTruthful(s: Session, view: View, timeout: int, now: int)
    ensures forall o | o in React(s, view, timeout, now).said :: Truthful(o)
  {
    hide React;
    ReactHasReasons(s, view, timeout, now);
  }

  lemma {:induction false} SpokenTruthful(timeout: int, events: seq<Timed>, u: Uid)
    requires Possible(Initial(timeout), events)
    ensures forall o | o in Spoken(Run(Initial(timeout), events).out, u) :: Truthful(o)
    decreases |events|
  {
    hide Step, Enabled, React, NewSock, ViewOf, Truthful;
    if events != [] {
      var init, last := events[..|events| - 1], events[|events| - 1];
      var before := Run(Initial(timeout), init);
      RunReacts(timeout, events, u);
      hide Inv, Quiet;
      SpokenTruthful(timeout, init, u);
      if Live(before, u) {
        ReactTruthful(RecordOf(before, u).value, ViewOf(before, last.event, u), before.timeout, last.now);
      }
    }
  }

  lemma {:induction false} TextOfTruthful(out: seq<Out>, u: Uid)
    requires forall o | o in Spoken(out, u) :: Truthful(o)
    ensures DeliveredText(out, u) == Concat(Delivered(out, u))
  {
    if out != [] {
      var init, o := out[..|out| - 1], out[|out| - 1];
      TextOfTruthful(init, u);
      ConcatAppend(Delivered(init, u), StanzasOf(o, u));
      if o.owner == Some(u) {
        assert o in Spoken(out, u);
      }
    }
  }

  /** For every live session of every possible run, the text of all bodies sent so
      far followed by the text of its queue is exactly the text received for it;
      for a session that is over, what was sent is the beginning of it. */
  lemma TextExact(timeout: int, events: seq<Timed>, u: Uid)
    requires Possible(Initial(timeout), events)
    ensures var st := Run(Initial(timeout), events);
            && DeliveredText(st.out, u) <= Concat(Received(events, u))
            && (Live(st, u) ==>
                 DeliveredText(st.out, u) + Concat(RecordOf(st, u).value.queue) == Concat(Received(events, u)))
  {
    hide Run, Possible, Delivered, DeliveredText, Received, Concat;
    var st := Run(Initial(timeout), events);
    SpokenTruthful(timeout, events, u);
    TextOfTruthful(st.out, u);
    DeliveredInOrder(timeout, events, u);
    PrefixText(Delivered(st.out, u), Received(events, u));
    if Live(st, u) {
      DeliveryExact(timeout, events, u);
      ConcatAppend(Delivered(st.out, u), RecordOf(st, u).value.queue);
    }
  }

  lemma PrefixText(a: seq<Stanza>, b: seq<Stanza>)
    requires a <= b
    ensures Concat(a) <= Concat(b)
  {
    ConcatAppend(a, b[|a|..]);
    assert b == a + b[|a|..];
  }

  // ----- reasons -----

  /** Why an answer is given for a session: an empty one only because a newer poll
      took its place or its time is up; a message at once with a poll if stanzas
      wait, or when stanzas come in, and with all of them; a notice of termination
      only because the session is over, and never by a timeout check. */
  predicate HasReason(s: Session, view: View, over: bool, now: int, o: Out) {
    match o
    case Lost(conn, _) => view.Hangup? && s.conn == Some(conn)
    case Answer(conn, body, _) =>
      match body
      case Empty => s.conn == Some(conn) && (view.Polled? || (view.Check? && s.timestamp + s.wait <= now))
      case Messages(stanzas, text) =>
        && stanzas != [] && text == Concat(stanzas)
        && (if view.Polled? then conn == view.conn && stanzas == s.queue
            else view.Arrives? && s.conn == Some(conn) && stanzas == s.queue + NormalStanzas(view.items))
      case Terminate => over && !view.Check?
      case _ => false
  }

  lemma ReactHasReasons(s: Session, view: View, timeout: int, now: int)
    ensures var r := React(s, view, timeout, now);
            forall o | o in r.said :: HasReason(s, view, r.next.None?, now, o) && o.owner == Some(s.uid)
  {
    hide NormalStanzas, Concat, Carried, Writable, HasReason;
    match view
    case Polled(conn, m, sends) => PolledReasons(s, conn, m, sends, timeout, now);
    case Arrives(items, end) => ArrivesReasons(s, items, end, timeout, now);
    case _ => OtherReasons(s, view, timeout, now);
  }

  lemma PolledReasons(s: Session, conn: Conn, m: Message, sends: seq<SendOutcome>, timeout: int, now: int)
    ensures var view := Polled(conn, m, sends);
            var r := React(s, view, timeout, now);
            forall o | o in r.said :: HasReason(s, view, r.next.None?, now, o) && o.owner == Some(s.uid)
  {
    hide Concat, Carried;
    var view := Polled(conn, m, sends);
    var r := HandOver(s.(conn := Some(conn), timestamp := now), now);
    var t := r.next.value.(sock := Carried(s.sock, m, sends));
    assert forall o | o in Tell(s, Empty) :: HasReason(s, view, m.terminate, now, o) && o.owner == Some(s.uid);
    assert forall o | o in r.said :: HasReason(s, view, m.terminate, now, o) && o.owner == Some(s.uid);
    assert m.terminate ==>
      forall o | o in Tell(t, Terminate) :: HasReason(s, view, m.terminate, now, o) && o.owner == Some(s.uid);
    hide Tell, HandOver, HasReason;
  }

  lemma ArrivesReasons(s: Session, items: seq<StanzaEvent>, end: ReadEnd, timeout: int, now: int)
    ensures var view := Arrives(items, end);
            var r := React(s, view, timeout, now);
            forall o | o in r.said :: HasReason(s, view, r.next.None?, now, o) && o.owner == Some(s.uid)
  {
    hide Concat, NormalStanzas;
  }

  lemma OtherReasons(s: Session, view: View, timeout: int, now: int)
    requires !view.Polled? && !view.Arrives?
    ensures var r := React(s, view, timeout, now);
            forall o | o in r.said :: HasReason(s, view, r.next.None?, now, o) && o.owner == Some(s.uid)
  {
    hide Concat, NormalStanzas, Writable;
  }

  /** What was said stays said. */
  lemma OutGrows(timeout: int, events: seq<Timed>, e: Timed)
    requires Possible(Initial(timeout), events + [e])
    ensures Run(Initial(timeout), events).out <= Run(Initial(timeout), events + [e]).out
  {
    hide Enabled, NewSock, Possible;
    var all := events + [e];
    assert all[..|all| - 1] == events;
    RunReacts(timeout, all, 0);
    hide Step;
    var st := Run(Initial(timeout), events);
    if e.event.HttpRequest? && Creates(e.event.request, e.event.env) {
      CreateSays(st, e.event, e.now);
    } else {
      BT.OthersMove(st, e.event, e.now);
    }
  }

  lemma CreateSays(st: State, e: Event, now: int)
    requires e.HttpRequest? && Creates(e.request, e.env)
    ensures st.out <= Step(st, e, now).out
  {
    hide NewSock;
  }

  /** No answer comes without a reason. */
  lemma AnswersHaveReasons(timeout: int, events: seq<Timed>, e: Timed, u: Uid, k: nat, o: Out)
    requires Possible(Initial(timeout), events + [e])
    requires |Run(Initial(timeout), events).out| <= k < |Run(Initial(timeout), events + [e]).out|
    requires o == Run(Initial(timeout), events + [e]).out[k] && o.owner == Some(u)
    ensures var st := Run(Initial(timeout), events);
            && Live(st, u)
            && HasReason(RecordOf(st, u).value, ViewOf(st, e.event, u),
                         !Live(Run(Initial(timeout), events + [e]), u), e.now, o)
  {
    hide Step, Enabled, React, NewSock, ViewOf, HasReason, Possible;
    var all := events + [e];
    assert all[..|all| - 1] == events;
    var st, after := Run(Initial(timeout), events), Run(Initial(timeout), all);
    RunReacts(timeout, all, u);
    OutGrows(timeout, events, e);
    var more := after.out[|st.out|..];
    assert after.out == st.out + more && o == more[k - |st.out|];
    SpokenSplits(st.out, more, u);
    SpokenHas(more, o, u);
    if Live(st, u) {
      var r := React(RecordOf(st, u).value, ViewOf(st, e.event, u), st.timeout, e.now);
      SameEnds(Spoken(st.out, u), Spoken(more, u), r.said);
      ReactHasReasons(RecordOf(st, u).value, ViewOf(st, e.event, u), st.timeout, e.now);
    } else {
      SameEnds(Spoken(st.out, u), Spoken(more, u), []);
    }
  }

  lemma SameEnds(a: seq<Out>, b: seq<Out>, c: seq<Out>)
    requires a + b == a + c || a + b == a
    ensures a + b == a + c ==> b == c
    ensures a + b == a ==> b == []
  {
    assert (a + b)[|a|..] == b && (a + c)[|a|..] == c;
  }

  lemma {:induction false} SpokenSplits(a: seq<Out>, b: seq<Out>, u: Uid)
    ensures Spoken(a + b, u) == Spoken(a, u) + Spoken(b, u)
    decreases |b|
  {
    if b == [] {
      assert a + b == a;
    } else {
      var init := b[..|b| - 1];
      SpokenSplits(a, init, u);
      assert (a + b)[..|a + b| - 1] == a + init;
      AppendAssociates(Spoken(a, u), Spoken(init, u),
                       if b[|b| - 1].owner == Some(u) then [b[|b| - 1]] else []);
    }
  }

  lemma {:induction false} SpokenHas(out: seq<Out>, o: Out, u: Uid)
    requires o in out && o.owner == Some(u)
    ensures o in Spoken(out, u)
  {
    if o != out[|out| - 1] {
      assert o in out[..|out| - 1];
      SpokenHas(out[..|out| - 1], o, u);
    }
  }

  /** A request held for session `u` is answered with an empty body by a timeout
      check only when at least the hold time the client asked for has passed
      since the request arrived. */
  lemma NeverEarly(timeout: int, events: seq<Timed>, e: Timed, u: Uid, k: nat, o: Out)
    requires Possible(Initial(timeout), events + [e]) && e.event.Tick?
    requires |Run(Initial(timeout), events).out| <= k < |Run(Initial(timeout), events + [e]).out|
    requires o == Run(Initial(timeout), events + [e]).out[k] && o.owner == Some(u)
    ensures o.Answer? && o.body == Empty
    ensures var poll, asked := BT.LastPoll(Initial(timeout), events, u), Asked(Initial(timeout), events, u);
            && poll.Some? && poll.value.event.HttpRequest? && o.conn == poll.value.event.conn
            && asked.Some? && asked.value.wait.Some?
            && poll.value.now + 1000 * asked.value.wait.value <= e.now
  {
    hide Step, Enabled, Run, React;
    var all := events + [e];
    assert all[..|all| - 1] == events;
    var st := Run(Initial(timeout), events);
    AnswersHaveReasons(timeout, events, e, u, k, o);
    WaitExact(timeout, events, u);
    BT.HeldSinceArrival(timeout, events, u);
  }

  /** A poll that does not terminate its session is held exactly when no stanza
      was waiting for it, and answered at once with all of them otherwise. */
  lemma PollHolds(st: State, e: Event, now: int, u: Uid)
    requires Inv(st) && Enabled(st, e) && Live(st, u) && Polls(st, e, u) && !e.request.message.value.terminate
    ensures var queue := RecordOf(st, u).value.queue;
            var st' := Step(st, e, now);
            && Live(st', u)
            && RecordOf(st', u).value.conn == (if queue == [] then Some(e.conn) else None)
            && RecordOf(st', u).value.queue == []
            && (queue != [] ==> Answer(e.conn, Messages(queue, Concat(queue)), Some(u)) in Spoken(st'.out, u))
  {
    hide Step, Enabled, Becoming, Carried, Concat;
    StepReacts(st, e, now, u);
    CarryOver(st, Step(st, e, now), u, React(RecordOf(st, u).value, ViewOf(st, e, u), st.timeout, now));
    RecordUid(st, u);
  }

  lemma RecordUid(st: State, u: Uid)
    requires Live(st, u)
    ensures RecordOf(st, u).value.uid == u
  {
  }

  // ----- the status page and the stream header -----

  /** A GET is answered with the number of live sessions and the largest number
      there was after any handler of the run, and nothing else happens. */
  lemma StatusExact(timeout: int, events: seq<Timed>, conn: Conn, env: Env, now: int)
    requires Possible(Initial(timeout), events)
    ensures var st := Run(Initial(timeout), events);
            Step(st, HttpRequest(conn, Get, env), now) ==
              st.(callbacks := st.callbacks - {conn},
                  out := st.out +
                         [Answer(conn, StatusPage(|st.sessions|, PeakSessions(Initial(timeout), events)), None)])
  {
    hide Run, Possible, PeakSessions;
    CountersExact(timeout, events);
  }

  /** The stream header names the host, between the same words for all of them. */
  lemma HeaderNamesHost(host: Bytes, other: Bytes)
    ensures var before := "<stream:stream xmlns='jabber:client' xmlns:stream='http://etherx.jabber.org/streams' to='";
            JabberHeader(host) == before + host + "' xml:lang='en'>"
    ensures JabberHeader(host) == JabberHeader(other) ==> host == other
  {
    var before := "<stream:stream xmlns='jabber:client' xmlns:stream='http://etherx.jabber.org/streams' to='";
    var a, b := JabberHeader(host), JabberHeader(other);
    assert a[|before|..|a| - 16] == host && b[|before|..|b| - 16] == other;
  }
}
