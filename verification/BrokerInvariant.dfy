/** What every handler of the broker keeps: distinct sessions, counters, socket
    invariants, and the agreement of held connections with close callbacks. */
module BrokerInvariant {
  import opened Common
  import opened SocketModel
  import opened BrokerModel

  ghost predicate Distinct(sessions: seq<Session>) {
    forall i, j | 0 <= i < j < |sessions| ::
      sessions[i].uid != sessions[j].uid && sessions[i].sid != sessions[j].sid
  }

  /** Session `u` is live and its pending request is on `conn`. */
  predicate Holds(sessions: seq<Session>, u: Uid, conn: Conn) {
    var i := IndexOfUid(sessions, u);
    i < |sessions| && sessions[i].conn == Some(conn)
  }

  /** A close callback only ever points to a live session that holds the connection. */
  ghost predicate CallbacksSound(st: State) {
    forall c | c in st.callbacks :: Holds(st.sessions, st.callbacks[c], c)
  }

  /** The converse: whoever holds a connection is told when it closes. */
  ghost predicate CallbacksComplete(st: State) {
    forall i | 0 <= i < |st.sessions| && st.sessions[i].conn.Some? ::
      st.sessions[i].conn.value in st.callbacks &&
      st.callbacks[st.sessions[i].conn.value] == st.sessions[i].uid
  }

  ghost predicate Paired(st: State) {
    CallbacksSound(st) && CallbacksComplete(st)
  }

  ghost predicate SocketsOk(sessions: seq<Session>) {
    forall i | 0 <= i < |sessions| :: SockOk(sessions[i].sock)
  }

  /** The socket of a session that is over has been closed. */
  ghost predicate EndedOk(st: State) {
    forall u | u in st.ended :: u < st.nextUid && SockOk(st.ended[u]) && !st.ended[u].open
  }

  ghost predicate Numbered(st: State) {
    && (forall i | 0 <= i < |st.sessions| :: st.sessions[i].uid < st.nextUid)
    && (forall k | 0 <= k < |st.out| :: st.out[k].owner.Some? ==> st.out[k].owner.value < st.nextUid)
  }

  ghost predicate Inv(st: State) {
    && Distinct(st.sessions)
    && Numbered(st)
    && SocketsOk(st.sessions)
    && EndedOk(st)
    && CallbacksSound(st)
    && st.count == |st.sessions| <= st.maxCount
  }

  /** Between handlers every session is alive, and a session that holds a
      request has nothing queued for it. */
  predicate Settled(s: Session) {
    s.alive && (s.conn.Some? ==> s.queue == [])
  }

  ghost predicate Quiet(st: State) {
    forall i | 0 <= i < |st.sessions| :: Settled(st.sessions[i])
  }

  ghost predicate QuietExcept(st: State, k: nat) {
    forall i | 0 <= i < |st.sessions| && i != k :: Settled(st.sessions[i])
  }

  /** A registered XMPP socket belongs to a live session, so the callback of an
      event on it finds its client. */
  lemma WatchedIsLive(st: State, u: Uid)
    requires Inv(st) && Watched(st, u)
    ensures Live(st, u)
  {
  }

  // ----- positions -----

  lemma IndexIs(sessions: seq<Session>, i: nat)
    requires Distinct(sessions) && i < |sessions|
    ensures IndexOfUid(sessions, sessions[i].uid) == i
    ensures IndexOfSid(sessions, sessions[i].sid) == i
  {
  }

  lemma IndexAfterPut(sessions: seq<Session>, i: nat, s: Session, u: Uid)
    requires i < |sessions| && s.uid == sessions[i].uid
    ensures IndexOfUid(sessions[i := s], u) == IndexOfUid(sessions, u)
  {
    assert forall k | 0 <= k < |sessions| :: sessions[i := s][k].uid == sessions[k].uid;
  }

  lemma IndexAfterAppend(sessions: seq<Session>, s: Session, u: Uid)
    requires forall i | 0 <= i < |sessions| :: sessions[i].uid != s.uid
    ensures u != s.uid && IndexOfUid(sessions, u) < |sessions| ==>
              IndexOfUid(sessions + [s], u) == IndexOfUid(sessions, u)
    ensures u != s.uid && IndexOfUid(sessions, u) == |sessions| ==>
              IndexOfUid(sessions + [s], u) == |sessions| + 1
    ensures IndexOfUid(sessions + [s], s.uid) == |sessions|
  {
    var t := sessions + [s];
    assert t[|sessions|] == s;
    var a := IndexOfUid(t, u);
    assert a < |t| ==> t[a].uid == u;
    var b := IndexOfUid(sessions, u);
    assert b < |sessions| ==> t[b] == sessions[b];
    assert forall k | 0 <= k < |sessions| :: t[k] == sessions[k];
  }

  /** Where session `u` is once position `i` has been taken out. */
  function Shifted(i: nat, j: nat): nat
    requires i != j
  {
    if j < i then j else j - 1
  }

  lemma IndexAfterRemove(sessions: seq<Session>, i: nat, u: Uid)
    requires i < |sessions| && Distinct(sessions) && u != sessions[i].uid
    ensures var j := IndexOfUid(sessions, u);
            j != i && IndexOfUid(sessions[..i] + sessions[i + 1..], u) == Shifted(i, j)
  {
    var t := sessions[..i] + sessions[i + 1..];
    var j := IndexOfUid(sessions, u);
    assert forall k | 0 <= k < |t| :: t[k] == sessions[if k < i then k else k + 1];
    var a := IndexOfUid(t, u);
    if a < |t| {
      assert t[a] == sessions[if a < i then a else a + 1];
    }
    if j < |sessions| {
      assert t[Shifted(i, j)] == sessions[j];
    }
  }

  lemma DistinctAfterRemove(sessions: seq<Session>, i: nat)
    requires i < |sessions| && Distinct(sessions)
    ensures Distinct(sessions[..i] + sessions[i + 1..])
    ensures IndexOfUid(sessions[..i] + sessions[i + 1..], sessions[i].uid) == |sessions| - 1
  {
    var t := sessions[..i] + sessions[i + 1..];
    assert forall k | 0 <= k < |t| :: t[k] == sessions[if k < i then k else k + 1];
  }

  // ----- what the pieces of a handler keep -----

  lemma HoldsAfterPut(sessions: seq<Session>, i: nat, s: Session, u: Uid, conn: Conn)
    requires i < |sessions| && s.uid == sessions[i].uid
    requires Holds(sessions, u, conn) && (s.conn == sessions[i].conn || sessions[i].conn != Some(conn))
    ensures Holds(sessions[i := s], u, conn)
  {
    IndexAfterPut(sessions, i, s, u);
  }

  /** Replacing a session without touching its names or its connection. */
  lemma PutKeeps(st: State, i: nat, s: Session)
    requires Inv(st) && i < |st.sessions|
    requires s.uid == st.sessions[i].uid && s.sid == st.sessions[i].sid && s.conn == st.sessions[i].conn
    requires SockOk(s.sock)
    ensures Inv(Put(st, i, s))
    ensures CallbacksComplete(st) ==> CallbacksComplete(Put(st, i, s))
  {
    hide SockOk, Holds;
    var st' := Put(st, i, s);
    forall c | c in st'.callbacks ensures Holds(st'.sessions, st'.callbacks[c], c) {
      assert Holds(st.sessions, st.callbacks[c], c);
      HoldsAfterPut(st.sessions, i, s, st.callbacks[c], c);
    }
    assert forall j | 0 <= j < |st.sessions| ::
      st'.sessions[j].uid == st.sessions[j].uid && st'.sessions[j].sid == st.sessions[j].sid &&
      st'.sessions[j].conn == st.sessions[j].conn;
  }

  /** Answering the held request of session `i` with `s` as its new record. */
  lemma ReleaseKeeps(st: State, i: nat, s: Session, body: Body)
    requires Inv(st) && i < |st.sessions| && st.sessions[i].conn.Some?
    requires s.uid == st.sessions[i].uid && s.sid == st.sessions[i].sid && s.conn == None
    requires SockOk(s.sock)
    ensures var st' := AnswerOn(Put(st, i, s), st.sessions[i].conn.value, body, Some(s.uid));
            Inv(st') && (CallbacksComplete(st) ==> CallbacksComplete(st'))
  {
    hide SockOk, Holds;
    var conn := st.sessions[i].conn.value;
    var st' := AnswerOn(Put(st, i, s), conn, body, Some(s.uid));
    forall c | c in st'.callbacks ensures Holds(st'.sessions, st'.callbacks[c], c) {
      assert Holds(st.sessions, st.callbacks[c], c);
      HoldsAfterPut(st.sessions, i, s, st.callbacks[c], c);
    }
    if CallbacksComplete(st) {
      ReleasePairs(st, i, s, body);
    }
  }

  lemma ReleasePairs(st: State, i: nat, s: Session, body: Body)
    requires Distinct(st.sessions) && i < |st.sessions| && st.sessions[i].conn.Some?
    requires s.uid == st.sessions[i].uid && s.conn == None && CallbacksComplete(st)
    ensures CallbacksComplete(AnswerOn(Put(st, i, s), st.sessions[i].conn.value, body, Some(s.uid)))
  {
    var conn := st.sessions[i].conn.value;
    var st' := AnswerOn(Put(st, i, s), conn, body, Some(s.uid));
    assert st.callbacks[conn] == st.sessions[i].uid;
    assert forall j | 0 <= j < |st.sessions| && j != i :: st'.sessions[j] == st.sessions[j];
  }

  lemma FlushKeeps(st: State, i: nat, now: int)
    requires Inv(st) && i < |st.sessions|
    ensures Inv(FlushMessages(st, i, now))
    ensures CallbacksComplete(st) ==> CallbacksComplete(FlushMessages(st, i, now))
  {
    var s := st.sessions[i];
    if s.conn.Some? && s.queue != [] {
      ReleaseKeeps(st, i, s.(queue := [], conn := None, timestamp := now), Messages(s.queue, Concat(s.queue)));
    }
  }

  /** `jc_flush_messages` touches only session `i`, leaves it settled if alive,
      and changes neither its socket nor its `alive` flag. */
  lemma FlushSettles(st: State, i: nat, now: int)
    requires i < |st.sessions|
    ensures var st' := FlushMessages(st, i, now);
            && (forall j | 0 <= j < |st.sessions| && j != i :: st'.sessions[j] == st.sessions[j])
            && st'.sessions[i].uid == st.sessions[i].uid
            && st'.sessions[i].sock == st.sessions[i].sock
            && st'.sessions[i].alive == st.sessions[i].alive
            && (st'.sessions[i].conn.Some? ==> st'.sessions[i].queue == [])
  {
  }

  lemma DropKeeps(st: State, i: nat, terminate: bool, now: int)
    requires Inv(st) && i < |st.sessions| && st.sessions[i].conn.Some?
    ensures Inv(DropRequest(st, i, terminate, now))
    ensures CallbacksComplete(st) ==> CallbacksComplete(DropRequest(st, i, terminate, now))
  {
    ReleaseKeeps(st, i, st.sessions[i].(conn := None, timestamp := now), if terminate then Terminate else Empty);
  }

  lemma RemoveSound(st: State, i: nat)
    requires Distinct(st.sessions) && CallbacksSound(st) && i < |st.sessions| && st.sessions[i].conn.None?
    ensures CallbacksSound(Remove(st, i))
  {
    var st' := Remove(st, i);
    forall c | c in st'.callbacks ensures Holds(st'.sessions, st'.callbacks[c], c) {
      var u := st.callbacks[c];
      assert Holds(st.sessions, u, c);
      RemoveHolds(st.sessions, i, u, c);
    }
  }

  lemma RemoveHolds(sessions: seq<Session>, i: nat, u: Uid, conn: Conn)
    requires Distinct(sessions) && i < |sessions| && u != sessions[i].uid
    requires Holds(sessions, u, conn)
    ensures Holds(sessions[..i] + sessions[i + 1..], u, conn)
  {
    hide Distinct;
    var t := sessions[..i] + sessions[i + 1..];
    var j := IndexOfUid(sessions, u);
    IndexAfterRemove(sessions, i, u);
    assert t[Shifted(i, j)] == sessions[j];
  }

  lemma RemoveKeeps(st: State, i: nat)
    requires Inv(st) && i < |st.sessions| && st.sessions[i].conn.None?
    ensures Inv(Remove(st, i))
    ensures CallbacksComplete(st) ==> CallbacksComplete(Remove(st, i))
  {
    hide SockOk, CallbacksSound, Distinct;
    RemoveSound(st, i);
    DistinctAfterRemove(st.sessions, i);
    CloseKeepsOk(st.sessions[i].sock);
    var st' := Remove(st, i);
    assert forall k | 0 <= k < |st'.sessions| :: st'.sessions[k] == st.sessions[if k < i then k else k + 1];
  }

  /** Closing a session takes exactly it off the list, leaves every other record
      as it was, and leaves no callback pointing to it. */
  lemma CloseKeeps(st: State, i: nat, now: int)
    requires Inv(st) && i < |st.sessions|
    ensures Inv(CloseClient(st, i, now))
    ensures CallbacksComplete(st) ==> CallbacksComplete(CloseClient(st, i, now))
    ensures CloseClient(st, i, now).sessions == st.sessions[..i] + st.sessions[i + 1..]
    ensures var callbacks := CloseClient(st, i, now).callbacks;
            forall c | c in callbacks :: callbacks[c] != st.sessions[i].uid
  {
    hide SockOk;
    if st.sessions[i].conn.Some? {
      DropKeeps(st, i, true, now);
      RemoveKeeps(DropRequest(st, i, true, now), i);
    } else {
      RemoveKeeps(st, i);
    }
    NobodyPointsTo(CloseClient(st, i, now), st.sessions, i);
  }

  lemma NobodyPointsTo(st: State, before: seq<Session>, i: nat)
    requires CallbacksSound(st) && Distinct(before) && i < |before|
    requires st.sessions == before[..i] + before[i + 1..]
    ensures forall c | c in st.callbacks :: st.callbacks[c] != before[i].uid
  {
    DistinctAfterRemove(before, i);
    assert forall c | c in st.callbacks :: Holds(st.sessions, st.callbacks[c], c);
  }

  lemma CloseSettles(st: State, i: nat, now: int)
    requires i < |st.sessions| && QuietExcept(st, i)
    ensures Quiet(CloseClient(st, i, now))
  {
    var st' := CloseClient(st, i, now);
    assert forall k | 0 <= k < |st'.sessions| :: st'.sessions[k] == st.sessions[if k < i then k else k + 1];
  }

  /** Nobody except possibly position `t` holds the connection. */
  ghost predicate NoOtherHolder(sessions: seq<Session>, t: nat, conn: Conn) {
    forall j | 0 <= j < |sessions| && j != t :: sessions[j].conn != Some(conn)
  }

  lemma HoldKeeps(st: State, i: nat, conn: Conn, now: int)
    requires Inv(st) && i < |st.sessions| && st.sessions[i].conn.None?
    ensures Inv(Hold(st, i, conn, now))
  {
    hide SockOk, Holds;
    var s := st.sessions[i].(conn := Some(conn), timestamp := now);
    var st' := Hold(st, i, conn, now);
    NewHolder(st.sessions, i, s, conn);
    forall c | c in st'.callbacks ensures Holds(st'.sessions, st'.callbacks[c], c) {
      if c != conn {
        assert Holds(st.sessions, st.callbacks[c], c);
        HoldsAfterPut(st.sessions, i, s, st.callbacks[c], c);
      }
    }
  }

  lemma NewHolder(sessions: seq<Session>, i: nat, s: Session, conn: Conn)
    requires Distinct(sessions) && i < |sessions| && s.uid == sessions[i].uid && s.conn == Some(conn)
    ensures Holds(sessions[i := s], s.uid, conn)
  {
    IndexIs(sessions, i);
    IndexAfterPut(sessions, i, s, s.uid);
  }

  lemma HoldPairs(st: State, i: nat, conn: Conn, now: int)
    requires i < |st.sessions| && st.sessions[i].conn.None?
    requires CallbacksComplete(st) && NoOtherHolder(st.sessions, i, conn)
    ensures CallbacksComplete(Hold(st, i, conn, now))
  {
    var st' := Hold(st, i, conn, now);
    assert forall j | 0 <= j < |st.sessions| && j != i :: st'.sessions[j] == st.sessions[j];
  }

  /** Taking over a connection answers the request held before, keeps the
      invariant, and leaves no request held while stanzas wait for it. */
  lemma SetHttpKeeps(st: State, i: nat, conn: Conn, now: int)
    requires Inv(st) && i < |st.sessions|
    ensures Inv(SetHttp(st, i, conn, now))
    ensures var s := st.sessions[i];
            s.conn.Some? ==> st.out + [Answer(s.conn.value, Empty, Some(s.uid))] <= SetHttp(st, i, conn, now).out
    ensures CallbacksComplete(st) && NoOtherHolder(st.sessions, i, conn) ==>
              CallbacksComplete(SetHttp(st, i, conn, now))
    ensures Quiet(st) ==> Quiet(SetHttp(st, i, conn, now))
  {
    hide SockOk, Inv, CallbacksComplete;
    var st1 := if st.sessions[i].conn.Some? then DropRequest(st, i, false, now) else st;
    if st.sessions[i].conn.Some? {
      DropKeeps(st, i, false, now);
    }
    HoldKeeps(st1, i, conn, now);
    if CallbacksComplete(st) && NoOtherHolder(st.sessions, i, conn) {
      HoldPairs(st1, i, conn, now);
    }
    FlushKeeps(Hold(st1, i, conn, now), i, now);
    FlushSettles(Hold(st1, i, conn, now), i, now);
  }

  lemma AnswerKeeps(st: State, conn: Conn, body: Body)
    requires Inv(st)
    ensures Inv(AnswerOn(st, conn, body, None))
    ensures CallbacksComplete(st) && NoOtherHolder(st.sessions, |st.sessions|, conn) ==>
              CallbacksComplete(AnswerOn(st, conn, body, None))
  {
    var st' := AnswerOn(st, conn, body, None);
    forall c | c in st'.callbacks ensures Holds(st'.sessions, st'.callbacks[c], c) {
      assert Holds(st.sessions, st.callbacks[c], c);
    }
  }

  lemma NewSockOk(host: Bytes)
    ensures SockOk(NewSock(host))
    ensures NewSock(host).submitted == JabberHeader(host) && NewSock(host).accepted == []
  {
    SendKeepsOk(Dialled(), Some(JabberHeader(host)), false, []);
    WantDataKeepsOk(Send(Dialled(), Some(JabberHeader(host)), false, []), true);
    assert Dialled().submitted + JabberHeader(host) == JabberHeader(host);
  }

  lemma AddKeeps(st: State, sid: nat, wait: int, host: Bytes, now: int)
    requires Inv(st) && IndexOfSid(st.sessions, sid) == |st.sessions|
    ensures Inv(AddSession(st, sid, wait, host, now))
    ensures CallbacksComplete(st) ==> CallbacksComplete(AddSession(st, sid, wait, host, now))
  {
    hide SockOk, NewSock;
    var st' := AddSession(st, sid, wait, host, now);
    var s := Session(st.nextUid, sid, None, [], true, now, wait, NewSock(host));
    NewSockOk(host);
    assert st'.sessions == st.sessions + [s];
    assert forall j | 0 <= j < |st.sessions| :: st'.sessions[j] == st.sessions[j];
    forall c | c in st'.callbacks ensures Holds(st'.sessions, st'.callbacks[c], c) {
      assert Holds(st.sessions, st.callbacks[c], c);
      IndexAfterAppend(st.sessions, s, st.callbacks[c]);
    }
  }

  lemma AddSettles(st: State, sid: nat, wait: int, host: Bytes, now: int, conn: Conn)
    ensures Quiet(st) ==> Quiet(AddSession(st, sid, wait, host, now))
    ensures NoOtherHolder(st.sessions, |st.sessions|, conn) ==>
              NoOtherHolder(AddSession(st, sid, wait, host, now).sessions, |st.sessions| + 1, conn)
  {
    var st' := AddSession(st, sid, wait, host, now);
    assert forall j | 0 <= j < |st.sessions| :: st'.sessions[j] == st.sessions[j];
  }

  lemma ClearIs(st: State, conn: Conn, now: int) returns (i: nat, s: Session)
    requires CallbacksSound(st) && conn in st.callbacks
    ensures i < |st.sessions| && st.sessions[i].uid == st.callbacks[conn] && st.sessions[i].conn == Some(conn)
    ensures s == st.sessions[i].(conn := None, timestamp := now)
    ensures ClearHttp(st, conn, now) ==
              st.(sessions := st.sessions[i := s], callbacks := st.callbacks - {conn},
                  out := st.out + [Lost(conn, Some(st.callbacks[conn]))])
  {
    assert Holds(st.sessions, st.callbacks[conn], conn);
    i := IndexOfUid(st.sessions, st.callbacks[conn]);
    s := st.sessions[i].(conn := None, timestamp := now);
  }

  /** The close callback of a connection reaches the live session that holds it,
      which lets go of it; without a callback, nothing happens. */
  lemma ClearKeeps(st: State, conn: Conn, now: int)
    requires Inv(st)
    ensures Inv(ClearHttp(st, conn, now))
    ensures CallbacksComplete(st) ==> CallbacksComplete(ClearHttp(st, conn, now))
    ensures Quiet(st) ==> Quiet(ClearHttp(st, conn, now))
    ensures var st' := ClearHttp(st, conn, now);
            if conn in st.callbacks then
              var u := st.callbacks[conn];
              && Holds(st.sessions, u, conn) && Live(st', u) && !Holds(st'.sessions, u, conn)
              && st'.out == st.out + [Lost(conn, Some(u))]
            else st' == st
  {
    hide SockOk, Holds;
    if conn in st.callbacks {
      var i, s := ClearIs(st, conn, now);
      hide ClearHttp;
      ClearSound(st, i, s, conn);
      ClearLetsGo(st.sessions, i, s, conn);
      assert forall j | 0 <= j < |st.sessions| && j != i :: st.sessions[i := s][j] == st.sessions[j];
    }
  }

  lemma ClearLetsGo(sessions: seq<Session>, i: nat, s: Session, conn: Conn)
    requires Distinct(sessions) && i < |sessions| && s.uid == sessions[i].uid
    requires sessions[i].conn == Some(conn) && s.conn == None
    ensures IndexOfUid(sessions[i := s], s.uid) == i
    ensures Holds(sessions, s.uid, conn) && !Holds(sessions[i := s], s.uid, conn)
  {
    IndexIs(sessions, i);
    IndexAfterPut(sessions, i, s, s.uid);
  }

  lemma ClearSound(st: State, i: nat, s: Session, conn: Conn)
    requires CallbacksSound(st) && i < |st.sessions| && st.sessions[i].conn == Some(conn)
    requires s.uid == st.sessions[i].uid && s.conn == None
    ensures forall c | c in st.callbacks && c != conn :: Holds(st.sessions[i := s], st.callbacks[c], c)
  {
    hide Holds;
    forall c | c in st.callbacks && c != conn ensures Holds(st.sessions[i := s], st.callbacks[c], c) {
      assert Holds(st.sessions, st.callbacks[c], c);
      HoldsAfterPut(st.sessions, i, s, st.callbacks[c], c);
    }
  }

  lemma {:induction false} StanzasKeepNames(s: Session, items: seq<StanzaEvent>)
    ensures var s' := HandleStanzas(s, items);
            s'.uid == s.uid && s'.sid == s.sid && s'.conn == s.conn && s'.sock == s.sock
    ensures var s' := HandleStanzas(s, items);
            s'.timestamp == s.timestamp && s'.wait == s.wait
    decreases |items|
  {
    if items != [] {
      StanzasKeepNames(HandleStanza(s, items[0]), items[1..]);
    }
  }

  lemma ReadKeeps(st: State, i: nat, items: seq<StanzaEvent>, end: ReadEnd, now: int)
    requires Inv(st) && i < |st.sessions|
    ensures Inv(ReadJabber(st, i, items, end, now))
    ensures CallbacksComplete(st) ==> CallbacksComplete(ReadJabber(st, i, items, end, now))
    ensures Quiet(st) ==> Quiet(ReadJabber(st, i, items, end, now))
  {
    var s := AfterRead(st.sessions[i], items, end);
    StanzasKeepNames(st.sessions[i], items);
    CloseKeepsOk(st.sessions[i].sock);
    PutKeeps(st, i, s);
    FlushKeeps(Put(st, i, s), i, now);
    FlushSettles(Put(st, i, s), i, now);
    CloseKeeps(FlushMessages(Put(st, i, s), i, now), i, now);
    if Quiet(st) {
      CloseSettles(FlushMessages(Put(st, i, s), i, now), i, now);
    }
  }

  lemma ReadyKeeps(st: State, i: nat, error: int, sends: seq<SendOutcome>, now: int)
    requires Inv(st) && i < |st.sessions|
    ensures Inv(XmppReady(st, i, error, sends, now))
    ensures CallbacksComplete(st) ==> CallbacksComplete(XmppReady(st, i, error, sends, now))
    ensures Quiet(st) ==> Quiet(XmppReady(st, i, error, sends, now))
  {
    var s := st.sessions[i];
    WritableKeepsOk(s.sock, error, sends);
    var s' := s.(sock := Writable(s.sock, error, sends));
    PutKeeps(st, i, s');
    CloseKeeps(Put(st, i, s'), i, now);
    if Quiet(st) {
      CloseSettles(Put(st, i, s'), i, now);
    }
  }

  lemma SendStanzasKeeps(st: State, i: nat, stanzas: seq<Stanza>, sends: seq<SendOutcome>)
    requires Inv(st) && i < |st.sessions|
    ensures Inv(SendStanzas(st, i, stanzas, sends))
    ensures CallbacksComplete(st) ==> CallbacksComplete(SendStanzas(st, i, stanzas, sends))
    ensures Quiet(st) ==> Quiet(SendStanzas(st, i, stanzas, sends))
  {
    var s := st.sessions[i];
    SendAllKeepsOk(s.sock, stanzas);
    SendKeepsOk(SendAll(s.sock, stanzas), None, false, sends);
    PutKeeps(st, i, s.(sock := Send(SendAll(s.sock, stanzas), None, false, sends)));
  }

  lemma PollKeeps(st: State, i: nat, conn: Conn, m: Message, sends: seq<SendOutcome>, now: int)
    requires Inv(st) && i < |st.sessions|
    ensures Inv(PollSession(st, i, conn, m, sends, now))
    ensures CallbacksComplete(st) && NoOtherHolder(st.sessions, i, conn) ==>
              CallbacksComplete(PollSession(st, i, conn, m, sends, now))
    ensures Quiet(st) ==> Quiet(PollSession(st, i, conn, m, sends, now))
  {
    SetHttpKeeps(st, i, conn, now);
    SendStanzasKeeps(SetHttp(st, i, conn, now), i, m.stanzas, sends);
    CloseKeeps(SendStanzas(SetHttp(st, i, conn, now), i, m.stanzas, sends), i, now);
    if Quiet(st) {
      CloseSettles(SendStanzas(SetHttp(st, i, conn, now), i, m.stanzas, sends), i, now);
    }
  }

  lemma ConnectKeeps(st: State, conn: Conn, m: Message, env: Env, now: int)
    requires Inv(st) && IndexOfSid(st.sessions, env.newSid) == |st.sessions|
    ensures Inv(ConnectClient(st, conn, m, env, now))
    ensures CallbacksComplete(st) && NoOtherHolder(st.sessions, |st.sessions|, conn) ==>
              CallbacksComplete(ConnectClient(st, conn, m, env, now))
    ensures Quiet(st) ==> Quiet(ConnectClient(st, conn, m, env, now))
  {
    hide SockOk, NewSock;
    if Acceptable(m, env) {
      var st1 := AddSession(st, env.newSid, m.wait.value * 1000, m.to.value, now);
      AddKeeps(st, env.newSid, m.wait.value * 1000, m.to.value, now);
      AddSettles(st, env.newSid, m.wait.value * 1000, m.to.value, now, conn);
      AnswerKeeps(st1, conn, Created(env.newSid));
    } else {
      AnswerKeeps(st, conn, Error(BadFormat));
      AnswerKeeps(st, conn, Error(ConnectionFailed));
    }
  }

  /** The position of the session a request is about, if there is one. */
  function Target(st: State, request: Request): (t: nat)
    ensures t <= |st.sessions|
  {
    if request.Post? && request.message.Some? && request.message.value.sid.Sid? && request.message.value.hasRid
    then IndexOfSid(st.sessions, request.message.value.sid.value)
    else |st.sessions|
  }

  lemma RequestKeeps(st: State, conn: Conn, request: Request, env: Env, now: int)
    requires Inv(st) && IndexOfSid(st.sessions, env.newSid) == |st.sessions|
    ensures Inv(HandleRequest(st, conn, request, env, now))
    ensures CallbacksComplete(st) && NoOtherHolder(st.sessions, Target(st, request), conn) ==>
              CallbacksComplete(HandleRequest(st, conn, request, env, now))
    ensures Quiet(st) ==> Quiet(HandleRequest(st, conn, request, env, now))
  {
    hide PollSession, ConnectClient, Inv, CallbacksComplete;
    var t := Target(st, request);
    if t < |st.sessions| {
      PollKeeps(st, t, conn, request.message.value, env.sends, now);
    } else if request.Post? && request.message.Some? && request.message.value.sid.NoSid? {
      ConnectKeeps(st, conn, request.message.value, env, now);
    } else {
      AnswerKeeps(st, conn, StatusPage(st.count, st.maxCount));
      AnswerKeeps(st, conn, Error(BadFormat));
      AnswerKeeps(st, conn, Error(SidNotFound));
    }
  }

  lemma {:induction false} DropDueKeeps(st: State, k: nat, now: int)
    requires Inv(st) && k <= |st.sessions|
    ensures Inv(DropDue(st, k, now))
    ensures CallbacksComplete(st) ==> CallbacksComplete(DropDue(st, k, now))
    ensures Quiet(st) ==> Quiet(DropDue(st, k, now))
    decreases |st.sessions| - k
  {
    hide SockOk;
    if k < |st.sessions| {
      if RequestDue(st.sessions[k], now) {
        DropKeeps(st, k, false, now);
        DropDueKeeps(DropRequest(st, k, false, now), k + 1, now);
      } else {
        DropDueKeeps(st, k + 1, now);
      }
    }
  }

  lemma {:induction false} CloseAllKeeps(st: State, uids: seq<Uid>, now: int)
    requires Inv(st)
    ensures Inv(CloseAll(st, uids, now))
    ensures CallbacksComplete(st) ==> CallbacksComplete(CloseAll(st, uids, now))
    ensures Quiet(st) ==> Quiet(CloseAll(st, uids, now))
    decreases |uids|
  {
    if uids != [] {
      var i := IndexOfUid(st.sessions, uids[0]);
      if i < |st.sessions| {
        CloseKeeps(st, i, now);
        if Quiet(st) {
          CloseSettles(st, i, now);
        }
        CloseAllKeeps(CloseClient(st, i, now), uids[1..], now);
      } else {
        CloseAllKeeps(st, uids[1..], now);
      }
    }
  }

  /** Every handler keeps the invariant and leaves the broker quiet; it keeps
      holders and callbacks paired as well, provided a request comes on a
      connection that no session other than its target still holds. */
  lemma StepKeeps(st: State, e: Event, now: int)
    requires Inv(st) && Enabled(st, e)
    ensures Inv(Step(st, e, now))
    ensures Quiet(st) ==> Quiet(Step(st, e, now))
    ensures CallbacksComplete(st) && (e.HttpRequest? ==> NoOtherHolder(st.sessions, Target(st, e.request), e.conn)) ==>
              CallbacksComplete(Step(st, e, now))
  {
    match e
    case HttpRequest(conn, request, env) => RequestKeeps(st, conn, request, env, now);
    case HttpClosed(conn) => ClearKeeps(st, conn, now);
    case XmppData(u, items, end) => ReadKeeps(st, IndexOfUid(st.sessions, u), items, end, now);
    case XmppWritable(u, error, sends) => ReadyKeeps(st, IndexOfUid(st.sessions, u), error, sends, now);
    case XmppError(u) =>
      CloseKeeps(st, IndexOfUid(st.sessions, u), now);
      if Quiet(st) {
        CloseSettles(st, IndexOfUid(st.sessions, u), now);
      }
    case Tick =>
      DropDueKeeps(st, 0, now);
      CloseAllKeeps(DropDue(st, 0, now), ToClose(st.sessions, st.timeout, now), now);
  }
}
