/** The broker as seen by one session.  `React` is a machine that knows a single
    session and what happens to it; every handler does to every session exactly
    what that machine does, so the broker is all of them side by side. */
module BrokerReact {
  import opened Common
  import opened SocketModel
  import opened BrokerModel
  import opened BrokerInvariant
  import opened BrokerPairing
  import opened BrokerSockets
  import opened BrokerDelivery
  import BT = BrokerTime

  /** What an event means to one session. */
  datatype View =
    | Polled(conn: Conn, message: Message, sends: seq<SendOutcome>)
    | Hangup
    | Arrives(items: seq<StanzaEvent>, end: ReadEnd)
    | Writes(error: int, sends: seq<SendOutcome>)
    | Failure
    | Check
    | Unconcerned

  function ViewOf(st: State, e: Event, u: Uid): View {
    match e
    case HttpRequest(conn, request, env) =>
      if Polls(st, e, u) then Polled(conn, request.message.value, env.sends) else Unconcerned
    case HttpClosed(conn) => if conn in st.callbacks && st.callbacks[conn] == u then Hangup else Unconcerned
    case XmppData(v, items, end) => if v == u then Arrives(items, end) else Unconcerned
    case XmppWritable(v, error, sends) => if v == u then Writes(error, sends) else Unconcerned
    case XmppError(v) => if v == u then Failure else Unconcerned
    case Tick => Check
  }

  /** What becomes of a session, if anything, and what is said on its behalf. */
  datatype Reaction = Reaction(next: Option<Session>, said: seq<Out>)

  /** An answer to the request the session holds, if it holds one. */
  function Tell(s: Session, body: Body): seq<Out> {
    if s.conn.Some? then [Answer(s.conn.value, body, Some(s.uid))] else []
  }

  /** The stanzas waiting go out as one body, as soon as there is a request. */
  function HandOver(s: Session, now: int): Reaction {
    if s.conn.Some? && s.queue != [] then
      Reaction(Some(s.(conn := None, queue := [], timestamp := now)), Tell(s, Messages(s.queue, Concat(s.queue))))
    else Reaction(Some(s), [])
  }

  function React(s: Session, view: View, timeout: int, now: int): Reaction {
    match view
    case Polled(conn, m, sends) =>
      var r := HandOver(s.(conn := Some(conn), timestamp := now), now);
      var said := Tell(s, Empty) + r.said;
      var t := r.next.value.(sock := Carried(s.sock, m, sends));
      if m.terminate then Reaction(None, said + Tell(t, Terminate)) else Reaction(Some(t), said)
    case Hangup =>
      Reaction(Some(s.(conn := None, timestamp := now)),
               if s.conn.Some? then [Lost(s.conn.value, Some(s.uid))] else [])
    case Arrives(items, end) =>
      var t := s.(queue := s.queue + NormalStanzas(items), alive := s.alive && ErrorOrStop !in items,
                  sock := if end.SocketEnded? then Close(s.sock) else s.sock);
      var r := HandOver(t, now);
      if t.sock.status != Connected || end.ParseFailed? || !t.alive
      then Reaction(None, r.said + Tell(r.next.value, Terminate))
      else r
    case Writes(error, sends) =>
      if s.sock.status == Connecting && error != 0 then Reaction(None, Tell(s, Terminate))
      else Reaction(Some(s.(sock := Writable(s.sock, error, sends))), [])
    case Failure => Reaction(None, Tell(s, Terminate))
    case Check =>
      if s.conn.Some? && s.timestamp + s.wait <= now
      then Reaction(Some(s.(conn := None, timestamp := now)), Tell(s, Empty))
      else if s.conn.None? && s.timestamp + timeout <= now then Reaction(None, [])
      else Reaction(Some(s), [])
    case Unconcerned => Reaction(Some(s), [])
  }

  // ----- what a state says about one session -----

  function RecordOf(st: State, u: Uid): Option<Session> {
    if Live(st, u) then Some(st.sessions[IndexOfUid(st.sessions, u)]) else None
  }

  /** What was said on behalf of session `u`. */
  function Spoken(out: seq<Out>, u: Uid): seq<Out> {
    if out == [] then []
    else Spoken(out[..|out| - 1], u) + (if out[|out| - 1].owner == Some(u) then [out[|out| - 1]] else [])
  }

  lemma SpokenSnoc(out: seq<Out>, o: Out, u: Uid)
    ensures Spoken(out + [o], u) == Spoken(out, u) + (if o.owner == Some(u) then [o] else [])
  {
    assert (out + [o])[..|out|] == out;
  }

  /** From `st` to `st'` session `u` becomes `r.next`, and `r.said` was said for it. */
  ghost predicate Becoming(st: State, st': State, u: Uid, r: Reaction) {
    RecordOf(st', u) == r.next && Spoken(st'.out, u) == Spoken(st.out, u) + r.said
  }

  /** Nothing happens to the session. */
  ghost predicate Same(st: State, st': State, u: Uid) {
    Becoming(st, st', u, Reaction(RecordOf(st, u), []))
  }

  lemma Chain(a: State, b: State, c: State, u: Uid, r1: Reaction, r2: Reaction)
    requires Becoming(a, b, u, r1) && Becoming(b, c, u, r2)
    ensures Becoming(a, c, u, Reaction(r2.next, r1.said + r2.said))
  {
    AppendAssociates(Spoken(a.out, u), r1.said, r2.said);
  }

  lemma ChainSame(a: State, b: State, c: State, u: Uid, r: Reaction)
    requires Becoming(a, b, u, r) && Same(b, c, u)
    ensures Becoming(a, c, u, r)
  {
    Chain(a, b, c, u, r, Reaction(RecordOf(b, u), []));
    assert r.said + [] == r.said;
  }

  lemma SameChain(a: State, b: State, c: State, u: Uid, r: Reaction)
    requires Same(a, b, u) && Becoming(b, c, u, r)
    ensures Becoming(a, c, u, r)
  {
    Chain(a, b, c, u, Reaction(RecordOf(a, u), []), r);
    assert [] + r.said == r.said;
  }

  lemma Nothing(st: State, st': State, u: Uid)
    requires st'.sessions == st.sessions && st'.out == st.out
    ensures Same(st, st', u)
  {
    assert Spoken(st.out, u) + [] == Spoken(st.out, u);
  }

  // ----- the pieces of a handler -----

  lemma PutOf(st: State, st': State, i: nat, u: Uid)
    requires Distinct(st.sessions) && i < |st.sessions| == |st'.sessions| && st'.out == st.out
    requires st'.sessions == st.sessions[i := st'.sessions[i]] && st'.sessions[i].uid == st.sessions[i].uid
    ensures u == st.sessions[i].uid ==> Becoming(st, st', u, Reaction(Some(st'.sessions[i]), []))
    ensures u != st.sessions[i].uid ==> Same(st, st', u)
  {
    IndexIs(st.sessions, i);
    IndexAfterPut(st.sessions, i, st'.sessions[i], u);
    assert Spoken(st.out, u) + [] == Spoken(st.out, u);
  }

  lemma AnswerOf(st: State, conn: Conn, body: Body, owner: Option<Uid>, u: Uid)
    ensures Becoming(st, AnswerOn(st, conn, body, owner), u,
                     Reaction(RecordOf(st, u), if owner == Some(u) then [Answer(conn, body, owner)] else []))
  {
    SpokenSnoc(st.out, Answer(conn, body, owner), u);
  }

  lemma RecordAt(st: State, i: nat)
    requires Distinct(st.sessions) && i < |st.sessions|
    ensures RecordOf(st, st.sessions[i].uid) == Some(st.sessions[i])
  {
    IndexIs(st.sessions, i);
  }

  /** Answering the held request with `s` as the new record. */
  lemma ReleaseOf(st: State, i: nat, s: Session, body: Body, u: Uid)
    requires Distinct(st.sessions) && i < |st.sessions| && s.uid == st.sessions[i].uid && st.sessions[i].conn.Some?
    ensures var st' := AnswerOn(Put(st, i, s), st.sessions[i].conn.value, body, Some(s.uid));
            && (u == s.uid ==> Becoming(st, st', u, Reaction(Some(s), Tell(st.sessions[i], body))))
            && (u != s.uid ==> Same(st, st', u))
  {
    hide Becoming;
    var st1 := Put(st, i, s);
    PutOf(st, st1, i, u);
    AnswerOf(st1, st.sessions[i].conn.value, body, Some(s.uid), u);
    var st' := AnswerOn(st1, st.sessions[i].conn.value, body, Some(s.uid));
    if u == s.uid {
      RecordPut(st, i, s);
      Chain(st, st1, st', u, Reaction(Some(s), []), Reaction(Some(s), Tell(st.sessions[i], body)));
      assert [] + Tell(st.sessions[i], body) == Tell(st.sessions[i], body);
    } else {
      ChainSame(st, st1, st', u, Reaction(RecordOf(st, u), []));
    }
  }

  lemma RecordPut(st: State, i: nat, s: Session)
    requires Distinct(st.sessions) && i < |st.sessions| && s.uid == st.sessions[i].uid
    ensures RecordOf(Put(st, i, s), s.uid) == Some(s)
  {
    IndexIs(st.sessions, i);
    IndexAfterPut(st.sessions, i, s, s.uid);
  }

  lemma FlushOf(st: State, i: nat, now: int, u: Uid)
    requires Distinct(st.sessions) && i < |st.sessions|
    ensures u == st.sessions[i].uid ==> Becoming(st, FlushMessages(st, i, now), u, HandOver(st.sessions[i], now))
    ensures u != st.sessions[i].uid ==> Same(st, FlushMessages(st, i, now), u)
  {
    hide Becoming;
    var s := st.sessions[i];
    if s.conn.Some? && s.queue != [] {
      ReleaseOf(st, i, s.(queue := [], conn := None, timestamp := now), Messages(s.queue, Concat(s.queue)), u);
    } else {
      Nothing(st, st, u);
      RecordAt(st, i);
    }
  }

  lemma DropOf(st: State, i: nat, terminate: bool, now: int, u: Uid)
    requires Distinct(st.sessions) && i < |st.sessions| && st.sessions[i].conn.Some?
    ensures var st' := DropRequest(st, i, terminate, now);
            var s := st.sessions[i];
            && (u == s.uid ==>
                 Becoming(st, st', u, Reaction(Some(s.(conn := None, timestamp := now)),
                                               Tell(s, if terminate then Terminate else Empty))))
            && (u != s.uid ==> Same(st, st', u))
  {
    hide Becoming;
    var s := st.sessions[i];
    ReleaseOf(st, i, s.(conn := None, timestamp := now), if terminate then Terminate else Empty, u);
  }

  lemma RemoveOf(st: State, i: nat, u: Uid)
    requires Distinct(st.sessions) && i < |st.sessions|
    ensures u == st.sessions[i].uid ==> Becoming(st, Remove(st, i), u, Reaction(None, []))
    ensures u != st.sessions[i].uid ==> Same(st, Remove(st, i), u)
  {
    DistinctAfterRemove(st.sessions, i);
    assert Spoken(st.out, u) + [] == Spoken(st.out, u);
    if u != st.sessions[i].uid {
      var t := st.sessions[..i] + st.sessions[i + 1..];
      var j := IndexOfUid(st.sessions, u);
      IndexAfterRemove(st.sessions, i, u);
      assert j < |st.sessions| ==> t[Shifted(i, j)] == st.sessions[j];
    }
  }

  lemma CloseOf(st: State, i: nat, now: int, u: Uid)
    requires Distinct(st.sessions) && i < |st.sessions|
    ensures var s := st.sessions[i];
            && (u == s.uid ==> Becoming(st, CloseClient(st, i, now), u, Reaction(None, Tell(s, Terminate))))
            && (u != s.uid ==> Same(st, CloseClient(st, i, now), u))
  {
    hide Becoming, Distinct;
    var s := st.sessions[i];
    if s.conn.Some? {
      var st1 := DropRequest(st, i, true, now);
      DropOf(st, i, true, now, u);
      DistinctStays(st, st1, i);
      RemoveOf(st1, i, u);
      if u == s.uid {
        Chain(st, st1, CloseClient(st, i, now), u,
              Reaction(Some(s.(conn := None, timestamp := now)), Tell(s, Terminate)), Reaction(None, []));
        assert Tell(s, Terminate) + [] == Tell(s, Terminate);
      } else {
        ChainSame(st, st1, CloseClient(st, i, now), u, Reaction(RecordOf(st, u), []));
      }
    } else {
      RemoveOf(st, i, u);
    }
  }

  lemma SetHttpOf(st: State, i: nat, conn: Conn, now: int, u: Uid)
    requires Inv(st) && i < |st.sessions|
    ensures var s, st' := st.sessions[i], SetHttp(st, i, conn, now);
            var r := HandOver(s.(conn := Some(conn), timestamp := now), now);
            && (u == s.uid ==> Becoming(st, st', u, Reaction(r.next, Tell(s, Empty) + r.said)))
            && (u != s.uid ==> Same(st, st', u))
  {
    hide Becoming, SockOk, Inv, FlushMessages, HandOver, DropRequest;
    var s := st.sessions[i];
    var st1 := if s.conn.Some? then DropRequest(st, i, false, now) else st;
    InvNames(st);
    if s.conn.Some? {
      DropOf(st, i, false, now, u);
      DropKeeps(st, i, false, now);
      DropRecord(st, i, false, now);
    } else {
      Nothing(st, st, u);
      RecordAt(st, i);
    }
    InvNames(st1);
    var st2 := Hold(st1, i, conn, now);
    PutOf(st1, st2, i, u);
    HoldKeeps(st1, i, conn, now);
    InvNames(st2);
    FlushOf(st2, i, now, u);
    var held := s.(conn := Some(conn), timestamp := now);
    assert st2.sessions[i] == held;
    var st3 := FlushMessages(st2, i, now);
    if u == s.uid {
      var said := Tell(s, Empty);
      Chain(st, st1, st2, u, Reaction(Some(st1.sessions[i]), said), Reaction(Some(held), []));
      assert said + [] == said;
      Chain(st, st2, st3, u, Reaction(Some(held), said), HandOver(held, now));
    } else {
      SameChain(st, st1, st2, u, Reaction(RecordOf(st1, u), []));
      StillSame(st, st1, st2, u);
      StillSame(st, st2, st3, u);
    }
  }

  lemma StillSame(a: State, b: State, c: State, u: Uid)
    requires Same(a, b, u) && Same(b, c, u)
    ensures Same(a, c, u)
  {
    ChainSame(a, b, c, u, Reaction(RecordOf(a, u), []));
  }

  lemma InvNames(st: State)
    requires Inv(st)
    ensures Distinct(st.sessions)
  {
  }

  lemma DropRecord(st: State, i: nat, terminate: bool, now: int)
    requires i < |st.sessions| && st.sessions[i].conn.Some?
    ensures DropRequest(st, i, terminate, now).sessions ==
              st.sessions[i := st.sessions[i].(conn := None, timestamp := now)]
  {
  }

  lemma PollOf(st: State, i: nat, conn: Conn, m: Message, sends: seq<SendOutcome>, timeout: int, now: int, u: Uid)
    requires Inv(st) && i < |st.sessions|
    ensures var st' := PollSession(st, i, conn, m, sends, now);
            && (u == st.sessions[i].uid ==>
                 Becoming(st, st', u, React(st.sessions[i], Polled(conn, m, sends), timeout, now)))
            && (u != st.sessions[i].uid ==> Same(st, st', u))
  {
    hide Becoming, SockOk, Inv, SetHttp, CloseClient, HandOver, Send, SendAll;
    var s := st.sessions[i];
    var st1 := SetHttp(st, i, conn, now);
    SetHttpOf(st, i, conn, now, u);
    SetHttpOf(st, i, conn, now, s.uid);
    SetHttpKeeps(st, i, conn, now);
    SetHttpNames(st, i, conn, now);
    InvNames(st1);
    RecordAt(st1, i);
    var r := HandOver(s.(conn := Some(conn), timestamp := now), now);
    Becomes1(st, st1, s.uid, Reaction(r.next, Tell(s, Empty) + r.said));
    assert st1.sessions[i] == r.next.value;
    var st2 := SendStanzas(st1, i, m.stanzas, sends);
    PutOf(st1, st2, i, u);
    SendStanzasKeeps(st1, i, m.stanzas, sends);
    InvNames(st2);
    var t := r.next.value.(sock := Carried(s.sock, m, sends));
    HandOverSock(s.(conn := Some(conn), timestamp := now), now);
    assert st2.sessions[i] == t;
    var said := Tell(s, Empty) + r.said;
    if u == s.uid {
      Chain(st, st1, st2, u, Reaction(r.next, said), Reaction(Some(t), []));
      assert said + [] == said;
    } else {
      StillSame(st, st1, st2, u);
    }
    if m.terminate {
      CloseOf(st2, i, now, u);
      if u == s.uid {
        Chain(st, st2, CloseClient(st2, i, now), u, Reaction(Some(t), said), Reaction(None, Tell(t, Terminate)));
      } else {
        StillSame(st, st2, CloseClient(st2, i, now), u);
      }
    }
  }

  lemma Becomes1(st: State, st': State, u: Uid, r: Reaction)
    requires Becoming(st, st', u, r)
    ensures RecordOf(st', u) == r.next
  {
  }

  lemma HandOverSock(s: Session, now: int)
    ensures HandOver(s, now).next.Some?
    ensures var t := HandOver(s, now).next.value;
            t.sock == s.sock && t.uid == s.uid && t.alive == s.alive
  {
  }

  lemma {:induction false} StanzasHandled(s: Session, items: seq<StanzaEvent>)
    ensures HandleStanzas(s, items) ==
              s.(queue := s.queue + NormalStanzas(items), alive := s.alive && ErrorOrStop !in items)
    decreases |items|
  {
    if items == [] {
      assert s.queue + [] == s.queue;
    } else {
      var t := HandleStanza(s, items[0]);
      StanzasHandled(t, items[1..]);
      assert items == [items[0]] + items[1..];
      AppendAssociates(s.queue, if items[0].Normal? then [items[0].stanza] else [], NormalStanzas(items[1..]));
      assert s.queue + [] == s.queue;
    }
  }

  lemma ReadOf(st: State, i: nat, items: seq<StanzaEvent>, end: ReadEnd, timeout: int, now: int, u: Uid)
    requires Inv(st) && i < |st.sessions|
    ensures var st' := ReadJabber(st, i, items, end, now);
            && (u == st.sessions[i].uid ==>
                 Becoming(st, st', u, React(st.sessions[i], Arrives(items, end), timeout, now)))
            && (u != st.sessions[i].uid ==> Same(st, st', u))
  {
    hide Becoming, SockOk, Inv, FlushMessages, CloseClient, HandOver, HandleStanzas, NormalStanzas;
    var s := st.sessions[i];
    StanzasHandled(s, items);
    var t := AfterRead(s, items, end);
    var st1 := Put(st, i, t);
    InvNames(st);
    PutOf(st, st1, i, u);
    InvSock(st, i);
    CloseKeepsOk(s.sock);
    PutKeeps(st, i, t);
    InvNames(st1);
    var st2 := FlushMessages(st1, i, now);
    FlushOf(st1, i, now, u);
    FlushOf(st1, i, now, s.uid);
    FlushKeeps(st1, i, now);
    FlushSettles(st1, i, now);
    InvNames(st2);
    RecordAt(st2, i);
    var r := HandOver(t, now);
    Becomes1(st1, st2, s.uid, r);
    HandOverSock(t, now);
    if u == s.uid {
      Chain(st, st1, st2, u, Reaction(Some(t), []), r);
      assert [] + r.said == r.said;
    } else {
      StillSame(st, st1, st2, u);
    }
    CloseOf(st2, i, now, u);
    if u == s.uid {
      Chain(st, st2, CloseClient(st2, i, now), u, r, Reaction(None, Tell(r.next.value, Terminate)));
    } else {
      StillSame(st, st2, CloseClient(st2, i, now), u);
    }
  }

  lemma InvSock(st: State, i: nat)
    requires Inv(st) && i < |st.sessions|
    ensures SockOk(st.sessions[i].sock)
  {
  }

  lemma ReadyOf(st: State, i: nat, error: int, sends: seq<SendOutcome>, timeout: int, now: int, u: Uid)
    requires Inv(st) && i < |st.sessions|
    ensures var st' := XmppReady(st, i, error, sends, now);
            && (u == st.sessions[i].uid ==>
                 Becoming(st, st', u, React(st.sessions[i], Writes(error, sends), timeout, now)))
            && (u != st.sessions[i].uid ==> Same(st, st', u))
  {
    hide Becoming, SockOk, Inv, CloseClient, Writable;
    var s := st.sessions[i];
    var t := s.(sock := Writable(s.sock, error, sends));
    var st1 := Put(st, i, t);
    InvNames(st);
    PutOf(st, st1, i, u);
    InvSock(st, i);
    WritableKeepsOk(s.sock, error, sends);
    PutKeeps(st, i, t);
    InvNames(st1);
    CloseOf(st1, i, now, u);
    if u == s.uid {
      Chain(st, st1, CloseClient(st1, i, now), u, Reaction(Some(t), []), Reaction(None, Tell(t, Terminate)));
      assert [] + Tell(t, Terminate) == Tell(s, Terminate);
    } else {
      StillSame(st, st1, CloseClient(st1, i, now), u);
    }
  }

  lemma ClearOf(st: State, conn: Conn, now: int, u: Uid)
    requires Inv(st)
    ensures Becoming(st, ClearHttp(st, conn, now), u,
                     if Live(st, u) then React(RecordOf(st, u).value, ViewOf(st, HttpClosed(conn), u), st.timeout, now)
                     else Reaction(None, []))
  {
    hide Becoming, SockOk;
    if conn in st.callbacks {
      var i, s := ClearIs(st, conn, now);
      hide ClearHttp;
      var st1 := Put(st, i, s);
      PutOf(st, st1, i, u);
      RecordAt(st, i);
      RecordPut(st, i, s);
      LostOf(st1, ClearHttp(st, conn, now), conn, st.callbacks[conn], u);
      if u == s.uid {
        var said := [Lost(conn, Some(u))];
        Chain(st, st1, ClearHttp(st, conn, now), u, Reaction(Some(s), []), Reaction(Some(s), said));
        assert [] + said == said;
      } else {
        StillSame(st, st1, ClearHttp(st, conn, now), u);
      }
    } else {
      Nothing(st, st, u);
    }
  }

  lemma LostOf(st: State, st': State, conn: Conn, owner: Uid, u: Uid)
    requires st'.sessions == st.sessions && st'.out == st.out + [Lost(conn, Some(owner))]
    ensures Becoming(st, st', u, Reaction(RecordOf(st, u), if owner == u then [Lost(conn, Some(owner))] else []))
  {
    SpokenSnoc(st.out, Lost(conn, Some(owner)), u);
  }

  /** The reaction of session `u` to the part of the scan from position `k` on. */
  function Scanned(st: State, k: nat, now: int, u: Uid): Reaction {
    var i := IndexOfUid(st.sessions, u);
    if k <= i < |st.sessions| && RequestDue(st.sessions[i], now)
    then Reaction(Some(st.sessions[i].(conn := None, timestamp := now)), Tell(st.sessions[i], Empty))
    else Reaction(RecordOf(st, u), [])
  }

  lemma {:induction false} DropDueOf(st: State, k: nat, now: int, u: Uid)
    requires Inv(st) && k <= |st.sessions|
    ensures Becoming(st, DropDue(st, k, now), u, Scanned(st, k, now, u))
    decreases |st.sessions| - k
  {
    hide Becoming, SockOk, Inv, DropRequest;
    InvNames(st);
    if k == |st.sessions| {
      Nothing(st, st, u);
    } else {
      IndexIs(st.sessions, k);
      if RequestDue(st.sessions[k], now) {
        var st1 := DropRequest(st, k, false, now);
        DropOf(st, k, false, now, u);
        DropKeeps(st, k, false, now);
        DropRecord(st, k, false, now);
        IndexAfterPut(st.sessions, k, st1.sessions[k], u);
        DropDueOf(st1, k + 1, now, u);
        ScanGoesOn(st, st1, k, now, u);
        var r := if u == st.sessions[k].uid
                 then Reaction(Some(st1.sessions[k]), Tell(st.sessions[k], Empty))
                 else Reaction(RecordOf(st, u), []);
        Chain(st, st1, DropDue(st, k, now), u, r, Scanned(st1, k + 1, now, u));
      } else {
        DropDueOf(st, k + 1, now, u);
      }
    }
  }

  lemma ScanGoesOn(st: State, st1: State, k: nat, now: int, u: Uid)
    requires Distinct(st.sessions) && k < |st.sessions| && RequestDue(st.sessions[k], now)
    requires st1.sessions == st.sessions[k := st.sessions[k].(conn := None, timestamp := now)]
    ensures var s := st.sessions[k];
            var said := if u == s.uid then Tell(s, Empty) else [];
            var rest := Scanned(st1, k + 1, now, u);
            Reaction(rest.next, said + rest.said) == Scanned(st, k, now, u)
  {
    IndexIs(st.sessions, k);
    IndexAfterPut(st.sessions, k, st1.sessions[k], u);
    assert Tell(st.sessions[k], Empty) + [] == Tell(st.sessions[k], Empty);
  }

  lemma {:induction false} CloseAllOf(st: State, uids: seq<Uid>, now: int, u: Uid)
    requires Inv(st)
    requires u in uids && Live(st, u) ==> RecordOf(st, u).value.conn.None?
    ensures Becoming(st, CloseAll(st, uids, now), u, Reaction(if u in uids then None else RecordOf(st, u), []))
    decreases |uids|
  {
    hide Becoming, SockOk, Inv, CloseClient;
    if uids == [] {
      Nothing(st, st, u);
    } else {
      assert uids == [uids[0]] + uids[1..];
      var i := IndexOfUid(st.sessions, uids[0]);
      if i < |st.sessions| {
        var st1 := CloseClient(st, i, now);
        InvNames(st);
        CloseOf(st, i, now, u);
        CloseKeeps(st, i, now);
        var r1 := Reaction(if u == uids[0] then None else RecordOf(st, u), []);
        RecordAt(st, i);
        Becomes1(st, st1, u, r1);
        CloseAllOf(st1, uids[1..], now, u);
        var r2 := Reaction(if u in uids[1..] then None else RecordOf(st1, u), []);
        Chain(st, st1, CloseAll(st, uids, now), u, r1, r2);
      } else {
        CloseAllOf(st, uids[1..], now, u);
      }
    }
  }

  lemma TickOf(st: State, now: int, u: Uid)
    requires Inv(st) && Live(st, u)
    ensures Becoming(st, CheckTimeout(st, now), u, React(RecordOf(st, u).value, Check, st.timeout, now))
  {
    hide Becoming, SockOk, Inv, DropDue, CloseAll, ToClose;
    var uids := ToClose(st.sessions, st.timeout, now);
    var st1 := DropDue(st, 0, now);
    InvNames(st);
    DropDueOf(st, 0, now, u);
    Becomes1(st, st1, u, Scanned(st, 0, now, u));
    DropDueKeeps(st, 0, now);
    BT.ToCloseExact(st.sessions, st.timeout, now, IndexOfUid(st.sessions, u));
    CloseAllOf(st1, uids, now, u);
    var r := Reaction(if u in uids then None else RecordOf(st1, u), []);
    Chain(st, st1, CheckTimeout(st, now), u, Scanned(st, 0, now, u), r);
    assert Scanned(st, 0, now, u).said + [] == Scanned(st, 0, now, u).said;
  }

  // ----- one handler -----

  /** Whatever the event, the handler does to every live session exactly what that
      session's own machine does, in its record and in its answers. */
  lemma StepReacts(st: State, e: Event, now: int, u: Uid)
    requires Inv(st) && Enabled(st, e) && Live(st, u)
    ensures Becoming(st, Step(st, e, now), u, React(RecordOf(st, u).value, ViewOf(st, e, u), st.timeout, now))
  {
    hide Becoming, HandleRequest, ClearHttp, ReadJabber, XmppReady, CloseClient, CheckTimeout, SockOk, HandOver;
    match e
    case HttpRequest(_, _, _) => RequestOf(st, e, now, u);
    case HttpClosed(conn) => ClearOf(st, conn, now, u);
    case XmppData(v, items, end) => ReadOf(st, IndexOfUid(st.sessions, v), items, end, st.timeout, now, u);
    case XmppWritable(v, error, sends) => ReadyOf(st, IndexOfUid(st.sessions, v), error, sends, st.timeout, now, u);
    case XmppError(v) => CloseOf(st, IndexOfUid(st.sessions, v), now, u);
    case Tick => TickOf(st, now, u);
  }

  lemma RequestOf(st: State, e: Event, now: int, u: Uid)
    requires Inv(st) && e.HttpRequest? && (Creates(e.request, e.env) ==> u != st.nextUid)
    ensures Becoming(st, Step(st, e, now), u,
                     if Live(st, u) then React(RecordOf(st, u).value, ViewOf(st, e, u), st.timeout, now)
                     else Reaction(None, []))
  {
    hide Becoming, PollSession, ConnectClient, Inv, HandOver;
    var t := Target(st, e.request);
    InvNames(st);
    if t < |st.sessions| {
      PollOf(st, t, e.conn, e.request.message.value, e.env.sends, st.timeout, now, u);
      RecordAt(st, t);
    } else if e.request.Post? && e.request.message.Some? && e.request.message.value.sid.NoSid? {
      ConnectOf(st, e.conn, e.request.message.value, e.env, now, u);
    } else {
      AnswerOf(st, e.conn, StatusPage(st.count, st.maxCount), None, u);
      AnswerOf(st, e.conn, Error(BadFormat), None, u);
      AnswerOf(st, e.conn, Error(SidNotFound), None, u);
    }
  }

  /** A session that is over, or not there yet, stays so, and nothing is said on
      its behalf. */
  lemma StepSilent(st: State, e: Event, now: int, u: Uid)
    requires Inv(st) && Enabled(st, e) && !Live(st, u)
    requires e.HttpRequest? && Creates(e.request, e.env) ==> u != st.nextUid
    ensures Becoming(st, Step(st, e, now), u, Reaction(None, []))
  {
    hide Becoming, HandleRequest, ClearHttp, ReadJabber, XmppReady, CloseClient, DropDue, CloseAll, SockOk, HandOver;
    match e
    case HttpRequest(_, _, _) => RequestOf(st, e, now, u);
    case HttpClosed(conn) => ClearOf(st, conn, now, u);
    case XmppData(v, items, end) => ReadOf(st, IndexOfUid(st.sessions, v), items, end, st.timeout, now, u);
    case XmppWritable(v, error, sends) => ReadyOf(st, IndexOfUid(st.sessions, v), error, sends, st.timeout, now, u);
    case XmppError(v) => CloseOf(st, IndexOfUid(st.sessions, v), now, u);
    case Tick =>
      var st1 := DropDue(st, 0, now);
      DropDueOf(st, 0, now, u);
      Becomes1(st, st1, u, Reaction(None, []));
      DropDueKeeps(st, 0, now);
      CloseAllOf(st1, ToClose(st.sessions, st.timeout, now), now, u);
      Chain(st, st1, Step(st, e, now), u, Reaction(None, []), Reaction(None, []));
  }

  lemma ConnectOf(st: State, conn: Conn, m: Message, env: Env, now: int, u: Uid)
    requires Inv(st) && (Acceptable(m, env) ==> u != st.nextUid)
    ensures Same(st, ConnectClient(st, conn, m, env, now), u)
  {
    hide Becoming, NewSock, SockOk;
    if Acceptable(m, env) {
      var s := Session(st.nextUid, env.newSid, None, [], true, now, m.wait.value * 1000, NewSock(m.to.value));
      var st1 := AddSession(st, env.newSid, m.wait.value * 1000, m.to.value, now);
      IndexAfterAppend(st.sessions, s, u);
      AddedOf(st, st1, s, u);
      AnswerOf(st1, conn, Created(env.newSid), None, u);
      StillSame(st, st1, ConnectClient(st, conn, m, env, now), u);
    } else {
      AnswerOf(st, conn, Error(BadFormat), None, u);
      AnswerOf(st, conn, Error(ConnectionFailed), None, u);
    }
  }

  lemma AddedOf(st: State, st': State, s: Session, u: Uid)
    requires st'.sessions == st.sessions + [s] && st'.out == st.out && u != s.uid
    requires forall i | 0 <= i < |st.sessions| :: st.sessions[i].uid != s.uid
    ensures Same(st, st', u)
  {
    IndexAfterAppend(st.sessions, s, u);
    assert Spoken(st.out, u) + [] == Spoken(st.out, u);
  }

  /** A creation starts the machine of a new session as the request asks, with
      the hold time in milliseconds, and says nothing on its behalf. */
  lemma StepCreates(st: State, e: Event, now: int)
    requires Inv(st) && e.HttpRequest? && Creates(e.request, e.env)
    ensures var m := e.request.message.value;
            Becoming(st, Step(st, e, now), st.nextUid,
                     Reaction(Some(Session(st.nextUid, e.env.newSid, None, [], true, now,
                                           1000 * m.wait.value, NewSock(m.to.value))), []))
  {
    hide NewSock, SockOk;
    var m := e.request.message.value;
    var s := Session(st.nextUid, e.env.newSid, None, [], true, now, 1000 * m.wait.value, NewSock(m.to.value));
    IndexAfterAppend(st.sessions, s, st.nextUid);
    assert Step(st, e, now).sessions == st.sessions + [s];
    SpokenSnoc(st.out, Answer(e.conn, Created(e.env.newSid), None), st.nextUid);
    assert Spoken(st.out, st.nextUid) + [] == Spoken(st.out, st.nextUid);
  }
}
