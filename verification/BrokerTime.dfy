/** Time: what the timeout check does to which session, and the deadlines every
    run of the server loop meets. */
module BrokerTime {
  import opened Common
  import opened SocketModel
  import opened BrokerModel
  import opened BrokerInvariant
  import opened BrokerPairing
  import opened BrokerSockets

  // ----- the closest timeout -----

  lemma {:induction false} ClosestFromBounds(st: State, k: nat, closest: int, now: int)
    requires k <= |st.sessions|
    ensures var c := ClosestFrom(st, k, closest, now);
            && c <= closest
            && (forall i | k <= i < |st.sessions| :: c <= Remaining(st.sessions[i], st.timeout, now))
            && (c == closest || exists i | k <= i < |st.sessions| :: c == Remaining(st.sessions[i], st.timeout, now))
    decreases |st.sessions| - k
  {
    if k < |st.sessions| {
      var left := Remaining(st.sessions[k], st.timeout, now);
      ClosestFromBounds(st, k + 1, if left < closest then left else closest, now);
    }
  }

  /** `jb_closest_timeout` is the exact minimum of the session timeout and the
      remaining times of all sessions. */
  lemma ClosestIsMinimum(st: State, now: int)
    ensures var c := ClosestTimeout(st, now);
            && c <= st.timeout
            && (forall i | 0 <= i < |st.sessions| :: c <= Remaining(st.sessions[i], st.timeout, now))
            && (c == st.timeout || exists i | 0 <= i < |st.sessions| :: c == Remaining(st.sessions[i], st.timeout, now))
  {
    ClosestFromBounds(st, 0, st.timeout, now);
  }

  // ----- the timeout check -----

  /** The sessions left by a timeout check, told from their remaining times
      alone: time left, no change; no time left, the held request is answered
      or, if there is none, the session is gone. */
  function AfterCheck(sessions: seq<Session>, timeout: int, now: int): seq<Session> {
    if sessions == [] then []
    else
      var s := sessions[0];
      (if Remaining(s, timeout, now) > 0 then [s]
       else if s.conn.Some? then [s.(conn := None, timestamp := now)]
       else []) + AfterCheck(sessions[1..], timeout, now)
  }

  /** The answers a timeout check sends, in list order. */
  function CheckAnswers(sessions: seq<Session>, timeout: int, now: int): seq<Out> {
    if sessions == [] then []
    else
      var s := sessions[0];
      (if Remaining(s, timeout, now) <= 0 && s.conn.Some? then [Answer(s.conn.value, Empty, Some(s.uid))] else []) +
      CheckAnswers(sessions[1..], timeout, now)
  }

  function Answered(s: Session, now: int): Session {
    if RequestDue(s, now) then s.(conn := None, timestamp := now) else s
  }

  function AllAnswered(sessions: seq<Session>, now: int): (r: seq<Session>)
    ensures |r| == |sessions|
    ensures forall i | 0 <= i < |r| :: r[i] == Answered(sessions[i], now)
  {
    if sessions == [] then [] else [Answered(sessions[0], now)] + AllAnswered(sessions[1..], now)
  }

  lemma {:induction false} DropDueSessions(st: State, k: nat, now: int)
    requires k <= |st.sessions|
    ensures DropDue(st, k, now).sessions == st.sessions[..k] + AllAnswered(st.sessions[k..], now)
    ensures DropDue(st, k, now).timeout == st.timeout
    decreases |st.sessions| - k
  {
    if k < |st.sessions| {
      var st1 := if RequestDue(st.sessions[k], now) then DropRequest(st, k, false, now) else st;
      assert st1.sessions == st.sessions[k := Answered(st.sessions[k], now)];
      DropDueSessions(st1, k + 1, now);
      AllAnsweredFrom(st.sessions, k, now);
    }
  }

  lemma AllAnsweredFrom(sessions: seq<Session>, k: nat, now: int)
    requires k < |sessions|
    ensures var next := sessions[k := Answered(sessions[k], now)];
            next[..k + 1] + AllAnswered(next[k + 1..], now) == sessions[..k] + AllAnswered(sessions[k..], now)
  {
    hide Answered;
    var next := sessions[k := Answered(sessions[k], now)];
    assert next[k + 1..] == sessions[k + 1..];
    assert sessions[k..][1..] == sessions[k + 1..];
    assert next[..k + 1] == sessions[..k] + [Answered(sessions[k], now)];
    AppendAssociates(sessions[..k], [Answered(sessions[k], now)], AllAnswered(sessions[k + 1..], now));
  }

  lemma {:induction false} DropDueOut(st: State, k: nat, now: int)
    requires k <= |st.sessions|
    ensures DropDue(st, k, now).out == st.out + CheckAnswers(st.sessions[k..], st.timeout, now)
    decreases |st.sessions| - k
  {
    if k < |st.sessions| {
      var st1 := if RequestDue(st.sessions[k], now) then DropRequest(st, k, false, now) else st;
      DropDueOut(st1, k + 1, now);
      assert st1.sessions[k + 1..] == st.sessions[k + 1..];
      assert st.sessions[k..][1..] == st.sessions[k + 1..];
    } else {
      assert st.out + [] == st.out;
    }
  }

  function Without(sessions: seq<Session>, uids: seq<Uid>): seq<Session> {
    if sessions == [] then []
    else (if sessions[0].uid in uids then [] else [sessions[0]]) + Without(sessions[1..], uids)
  }

  lemma CloseSessions(st: State, i: nat, now: int)
    requires i < |st.sessions|
    ensures CloseClient(st, i, now).sessions == st.sessions[..i] + st.sessions[i + 1..]
    ensures st.sessions[i].conn.None? ==> CloseClient(st, i, now).out == st.out
    ensures CloseClient(st, i, now).timeout == st.timeout
  {
  }

  lemma {:induction false} WithoutSplit(a: seq<Session>, b: seq<Session>, uids: seq<Uid>)
    ensures Without(a + b, uids) == Without(a, uids) + Without(b, uids)
  {
    if a == [] {
      assert a + b == b;
    } else {
      WithoutSplit(a[1..], b, uids);
      AppendAssociates(if a[0].uid in uids then [] else [a[0]], Without(a[1..], uids), Without(b, uids));
      assert (a + b)[1..] == a[1..] + b;
    }
  }

  lemma {:induction false} WithoutIgnores(sessions: seq<Session>, u: Uid, uids: seq<Uid>)
    requires forall i | 0 <= i < |sessions| :: sessions[i].uid != u
    ensures Without(sessions, [u] + uids) == Without(sessions, uids)
  {
    if sessions != [] {
      WithoutIgnores(sessions[1..], u, uids);
    }
  }

  lemma WithoutRemoved(sessions: seq<Session>, i: nat, uids: seq<Uid>)
    requires Distinct(sessions) && i < |sessions|
    ensures Without(sessions[..i] + sessions[i + 1..], uids) == Without(sessions, [sessions[i].uid] + uids)
  {
    var u := sessions[i].uid;
    var a, b := sessions[..i], sessions[i + 1..];
    WithoutIgnores(a, u, uids);
    WithoutIgnores(b, u, uids);
    WithoutSplit(a, b, uids);
    WithoutSplit(a, [sessions[i]] + b, [u] + uids);
    assert a + ([sessions[i]] + b) == sessions;
    assert ([sessions[i]] + b)[1..] == b;
  }

  lemma {:induction false} WithoutAbsent(sessions: seq<Session>, uids: seq<Uid>)
    requires forall i | 0 <= i < |sessions| :: sessions[i].uid !in uids
    ensures Without(sessions, uids) == sessions
  {
    if sessions != [] {
      WithoutAbsent(sessions[1..], uids);
    }
  }

  lemma {:induction false} CloseAllSessions(st: State, uids: seq<Uid>, now: int)
    requires Inv(st)
    requires forall i | 0 <= i < |st.sessions| && st.sessions[i].uid in uids :: st.sessions[i].conn.None?
    ensures CloseAll(st, uids, now).sessions == Without(st.sessions, uids)
    ensures CloseAll(st, uids, now).out == st.out && CloseAll(st, uids, now).timeout == st.timeout
    decreases |uids|
  {
    hide SockOk;
    if uids == [] {
      WithoutAbsent(st.sessions, uids);
    } else {
      var i := IndexOfUid(st.sessions, uids[0]);
      assert [uids[0]] + uids[1..] == uids;
      if i < |st.sessions| {
        CloseSessions(st, i, now);
        CloseKeeps(st, i, now);
        WithoutRemoved(st.sessions, i, uids[1..]);
        CloseAllSessions(CloseClient(st, i, now), uids[1..], now);
      } else {
        WithoutIgnores(st.sessions, uids[0], uids[1..]);
        CloseAllSessions(st, uids[1..], now);
      }
    }
  }

  lemma {:induction false} ToCloseOnly(sessions: seq<Session>, timeout: int, now: int, u: Uid)
    requires u in ToClose(sessions, timeout, now)
    ensures exists i | 0 <= i < |sessions| :: sessions[i].uid == u && SessionDue(sessions[i], timeout, now)
  {
    if SessionDue(sessions[0], timeout, now) && sessions[0].uid == u {
    } else {
      ToCloseOnly(sessions[1..], timeout, now, u);
      var i :| 0 <= i < |sessions[1..]| && sessions[1..][i].uid == u && SessionDue(sessions[1..][i], timeout, now);
      assert sessions[i + 1] == sessions[1..][i];
    }
  }

  lemma {:induction false} ToCloseAll(sessions: seq<Session>, timeout: int, now: int, i: nat)
    requires i < |sessions| && SessionDue(sessions[i], timeout, now)
    ensures sessions[i].uid in ToClose(sessions, timeout, now)
  {
    if i > 0 {
      ToCloseAll(sessions[1..], timeout, now, i - 1);
    }
  }

  lemma ToCloseExact(sessions: seq<Session>, timeout: int, now: int, i: nat)
    requires Distinct(sessions) && i < |sessions|
    ensures sessions[i].uid in ToClose(sessions, timeout, now) <==> SessionDue(sessions[i], timeout, now)
  {
    if sessions[i].uid in ToClose(sessions, timeout, now) {
      ToCloseOnly(sessions, timeout, now, sessions[i].uid);
    }
    if SessionDue(sessions[i], timeout, now) {
      ToCloseAll(sessions, timeout, now, i);
    }
  }

  lemma {:induction false} WithoutIsAfterCheck(sessions: seq<Session>, uids: seq<Uid>, timeout: int, now: int)
    requires forall i | 0 <= i < |sessions| :: sessions[i].uid in uids <==> SessionDue(sessions[i], timeout, now)
    ensures Without(AllAnswered(sessions, now), uids) == AfterCheck(sessions, timeout, now)
  {
    if sessions != [] {
      WithoutIsAfterCheck(sessions[1..], uids, timeout, now);
      assert AllAnswered(sessions, now)[1..] == AllAnswered(sessions[1..], now);
    }
  }

  /** `jb_check_timeout` acts on exactly the sessions with no time left: it
      answers the held requests among them with an empty body, closes the
      others without a word, and keeps the rest untouched and in order. */
  lemma CheckTimeoutExact(st: State, now: int)
    requires Inv(st)
    ensures CheckTimeout(st, now).sessions == AfterCheck(st.sessions, st.timeout, now)
    ensures CheckTimeout(st, now).out == st.out + CheckAnswers(st.sessions, st.timeout, now)
    ensures CheckTimeout(st, now).timeout == st.timeout
  {
    hide SockOk, Distinct, CallbacksSound, Numbered;
    var uids := ToClose(st.sessions, st.timeout, now);
    var st1 := DropDue(st, 0, now);
    assert st.sessions[0..] == st.sessions;
    DropDueSessions(st, 0, now);
    DropDueOut(st, 0, now);
    DropDueKeeps(st, 0, now);
    assert st1.sessions == AllAnswered(st.sessions, now);
    forall i | 0 <= i < |st.sessions|
      ensures st.sessions[i].uid in uids <==> SessionDue(st.sessions[i], st.timeout, now)
    {
      ToCloseExact(st.sessions, st.timeout, now, i);
    }
    forall i | 0 <= i < |st1.sessions| && st1.sessions[i].uid in uids ensures st1.sessions[i].conn.None? {
      assert st1.sessions[i] == Answered(st.sessions[i], now);
    }
    CloseAllSessions(st1, uids, now);
    WithoutIsAfterCheck(st.sessions, uids, st.timeout, now);
  }

  lemma {:induction false} AfterCheckRemaining(sessions: seq<Session>, timeout: int, now: int)
    requires timeout > 0
    ensures forall j | 0 <= j < |AfterCheck(sessions, timeout, now)| ::
              Remaining(AfterCheck(sessions, timeout, now)[j], timeout, now) > 0
  {
    if sessions != [] {
      AfterCheckRemaining(sessions[1..], timeout, now);
    }
  }

  /** After the check the closest timeout at the same clock value is positive,
      so the loop never spins: exactly when the session timeout is positive. */
  lemma ClosestAfterCheck(st: State, now: int)
    requires Inv(st)
    ensures ClosestTimeout(CheckTimeout(st, now), now) > 0 <==> st.timeout > 0
  {
    hide CheckTimeout, Inv;
    CheckTimeoutExact(st, now);
    ClosestIsMinimum(CheckTimeout(st, now), now);
    if st.timeout > 0 {
      AfterCheckRemaining(st.sessions, st.timeout, now);
    }
  }

  // ----- what one handler does to the clocks of the sessions -----

  /** The poll a handler serves: the session addressed and its new connection. */
  datatype Serving = NoPoll | PollBy(uid: Uid, conn: Conn)

  predicate SameClock(a: Session, b: Session) {
    a.uid == b.uid && a.conn == b.conn && a.timestamp == b.timestamp && a.wait == b.wait
  }

  /** Session record `s` got its clock reading at `now`, and a request held by
      it is the one just polled. */
  predicate Stamped(s: Session, now: int, poll: Serving) {
    s.timestamp == now && (s.conn.Some? ==> poll == PollBy(s.uid, s.conn.value))
  }

  /** Session record `s` is as it was in `st`, as far as time and its held
      request go. */
  predicate Kept(st: State, s: Session) {
    Live(st, s.uid) && SameClock(st.sessions[IndexOfUid(st.sessions, s.uid)], s)
  }

  /** Something between the two outputs belongs to session `u`. */
  ghost predicate Speaks(before: seq<Out>, after: seq<Out>, u: Uid) {
    exists k | |before| <= k < |after| :: after[k].owner == Some(u)
  }

  /** Session `u` is polled, or something is sent or lost on its behalf. */
  ghost predicate Acts(st: State, st': State, u: Uid, poll: Serving) {
    (poll.PollBy? && poll.uid == u) || Speaks(st.out, st'.out, u)
  }

  /** Session record `s` has its time and its request from now on exactly if it
      was acted for, and from before exactly if it was not. */
  ghost predicate Moved(st: State, st': State, s: Session, now: int, poll: Serving) {
    && Live(st, s.uid)
    && (if Acts(st, st', s.uid, poll) then Stamped(s, now, poll) else Kept(st, s))
  }

  ghost predicate Moves(st: State, st': State, now: int, poll: Serving) {
    && st'.timeout == st.timeout
    && st.out <= st'.out
    && forall j | 0 <= j < |st'.sessions| :: Moved(st, st', st'.sessions[j], now, poll)
  }

  lemma MovesNowhere(st: State, st': State, now: int)
    requires Distinct(st.sessions) && st'.timeout == st.timeout && st'.sessions == st.sessions
    requires st.out <= st'.out && forall k | |st.out| <= k < |st'.out| :: st'.out[k].owner == None
    ensures Moves(st, st', now, NoPoll)
  {
    forall j | 0 <= j < |st'.sessions| ensures Moved(st, st', st'.sessions[j], now, NoPoll) {
      IndexIs(st.sessions, j);
    }
  }

  lemma SpeaksSplits(a: seq<Out>, b: seq<Out>, c: seq<Out>, u: Uid)
    requires a <= b <= c
    ensures Speaks(a, c, u) <==> Speaks(a, b, u) || Speaks(b, c, u)
  {
    assert forall k | 0 <= k < |b| :: b[k] == c[k];
  }

  lemma MovesTrans(a: State, b: State, c: State, now: int, poll: Serving)
    requires Moves(a, b, now, poll) && Moves(b, c, now, NoPoll)
    ensures Moves(a, c, now, poll)
  {
    hide Speaks;
    forall j | 0 <= j < |c.sessions| ensures Moved(a, c, c.sessions[j], now, poll) {
      var s := c.sessions[j];
      assert Moved(b, c, s, now, NoPoll);
      SpeaksSplits(a.out, b.out, c.out, s.uid);
      assert Moved(a, b, b.sessions[IndexOfUid(b.sessions, s.uid)], now, poll);
    }
  }

  lemma MovesAfterStill(a: State, b: State, c: State, now: int, poll: Serving)
    requires Moves(a, b, now, NoPoll) && Moves(b, c, now, poll)
    requires forall j | 0 <= j < |b.sessions| && Speaks(a.out, b.out, b.sessions[j].uid) ::
               poll.PollBy? && poll.uid == b.sessions[j].uid
    ensures Moves(a, c, now, poll)
  {
    hide Speaks;
    forall j | 0 <= j < |c.sessions| ensures Moved(a, c, c.sessions[j], now, poll) {
      var s := c.sessions[j];
      assert Moved(b, c, s, now, poll);
      SpeaksSplits(a.out, b.out, c.out, s.uid);
      assert Moved(a, b, b.sessions[IndexOfUid(b.sessions, s.uid)], now, NoPoll);
    }
  }

  /** One record is replaced: stamped, with a word for its session or a poll of
      it, or with its clock untouched and no word. */
  lemma PutMoves(st: State, st': State, i: nat, s: Session, now: int, poll: Serving)
    requires Distinct(st.sessions) && i < |st.sessions| && s.uid == st.sessions[i].uid
    requires st'.sessions == st.sessions[i := s] && st'.timeout == st.timeout && st.out <= st'.out
    requires forall k | |st.out| <= k < |st'.out| :: st'.out[k].owner == Some(s.uid)
    requires poll.PollBy? ==> poll.uid == s.uid
    requires if poll.PollBy? || st'.out != st.out then Stamped(s, now, poll) else SameClock(st.sessions[i], s)
    ensures Moves(st, st', now, poll)
  {
    assert Speaks(st.out, st'.out, s.uid) <==> st'.out != st.out by {
      if st'.out != st.out {
        assert |st.out| < |st'.out|;
        assert st'.out[|st.out|].owner == Some(s.uid);
      }
    }
    forall j | 0 <= j < |st'.sessions| ensures Moved(st, st', st'.sessions[j], now, poll) {
      IndexIs(st.sessions, j);
      assert j != i ==> !Speaks(st.out, st'.out, st.sessions[j].uid);
    }
  }

  lemma FlushMoves(st: State, i: nat, now: int)
    requires Distinct(st.sessions) && i < |st.sessions|
    ensures Moves(st, FlushMessages(st, i, now), now, NoPoll)
  {
    var s := st.sessions[i];
    if s.conn.Some? && s.queue != [] {
      PutMoves(st, FlushMessages(st, i, now), i, s.(queue := [], conn := None, timestamp := now), now, NoPoll);
    } else {
      MovesNowhere(st, st, now);
    }
  }

  lemma DropMoves(st: State, i: nat, terminate: bool, now: int)
    requires Distinct(st.sessions) && i < |st.sessions| && st.sessions[i].conn.Some?
    ensures Moves(st, DropRequest(st, i, terminate, now), now, NoPoll)
  {
    PutMoves(st, DropRequest(st, i, terminate, now), i, st.sessions[i].(conn := None, timestamp := now), now, NoPoll);
  }

  lemma CloseMoves(st: State, i: nat, now: int)
    requires Distinct(st.sessions) && i < |st.sessions|
    ensures Moves(st, CloseClient(st, i, now), now, NoPoll)
  {
    CloseSessions(st, i, now);
    var st' := CloseClient(st, i, now);
    forall j | 0 <= j < |st'.sessions| ensures Moved(st, st', st'.sessions[j], now, NoPoll) {
      var k := if j < i then j else j + 1;
      assert st'.sessions[j] == st.sessions[k];
      IndexIs(st.sessions, k);
    }
  }

  lemma HoldMoves(st: State, i: nat, conn: Conn, now: int)
    requires Distinct(st.sessions) && i < |st.sessions|
    ensures Moves(st, Hold(st, i, conn, now), now, PollBy(st.sessions[i].uid, conn))
  {
    PutMoves(st, Hold(st, i, conn, now), i, st.sessions[i].(conn := Some(conn), timestamp := now), now,
             PollBy(st.sessions[i].uid, conn));
  }

  /** Dropping the request of session `i` says a word for that session only. */
  lemma DropSpeaks(st: State, st': State, i: nat)
    requires Distinct(st.sessions) && i < |st.sessions| == |st'.sessions|
    requires forall j | 0 <= j < |st.sessions| :: st'.sessions[j].uid == st.sessions[j].uid
    requires st.out <= st'.out && forall k | |st.out| <= k < |st'.out| :: st'.out[k].owner == Some(st.sessions[i].uid)
    ensures forall j | 0 <= j < |st'.sessions| && Speaks(st.out, st'.out, st'.sessions[j].uid) ::
              st'.sessions[j].uid == st.sessions[i].uid
  {
  }

  lemma SetHttpMoves(st: State, i: nat, conn: Conn, now: int)
    requires Inv(st) && i < |st.sessions|
    ensures Moves(st, SetHttp(st, i, conn, now), now, PollBy(st.sessions[i].uid, conn))
  {
    hide SockOk, Moves;
    var poll := PollBy(st.sessions[i].uid, conn);
    var st1 := if st.sessions[i].conn.Some? then DropRequest(st, i, false, now) else st;
    if st.sessions[i].conn.Some? {
      DropMoves(st, i, false, now);
      DropKeeps(st, i, false, now);
    } else {
      MovesNowhere(st, st, now);
    }
    var st2 := Hold(st1, i, conn, now);
    HoldMoves(st1, i, conn, now);
    DropSpeaks(st, st1, i);
    MovesAfterStill(st, st1, st2, now, poll);
    HoldKeeps(st1, i, conn, now);
    FlushMoves(st2, i, now);
    MovesTrans(st, st2, FlushMessages(st2, i, now), now, poll);
  }

  lemma PollMoves(st: State, i: nat, conn: Conn, m: Message, sends: seq<SendOutcome>, now: int)
    requires Inv(st) && i < |st.sessions|
    ensures Moves(st, PollSession(st, i, conn, m, sends, now), now, PollBy(st.sessions[i].uid, conn))
  {
    hide SockOk, SetHttp, Send, SendAll, CloseClient;
    var poll := PollBy(st.sessions[i].uid, conn);
    var st1 := SetHttp(st, i, conn, now);
    SetHttpMoves(st, i, conn, now);
    SetHttpKeeps(st, i, conn, now);
    var st2 := SendStanzas(st1, i, m.stanzas, sends);
    PutMoves(st1, st2, i, st2.sessions[i], now, NoPoll);
    MovesTrans(st, st1, st2, now, poll);
    SendStanzasKeeps(st1, i, m.stanzas, sends);
    if m.terminate {
      CloseMoves(st2, i, now);
      MovesTrans(st, st2, CloseClient(st2, i, now), now, poll);
    }
  }

  lemma ReadMoves(st: State, i: nat, items: seq<StanzaEvent>, end: ReadEnd, now: int)
    requires Inv(st) && i < |st.sessions|
    ensures Moves(st, ReadJabber(st, i, items, end, now), now, NoPoll)
  {
    hide SockOk, CloseClient, FlushMessages;
    var s := AfterRead(st.sessions[i], items, end);
    StanzasKeepNames(st.sessions[i], items);
    PutMoves(st, Put(st, i, s), i, s, now, NoPoll);
    CloseKeepsOk(st.sessions[i].sock);
    PutKeeps(st, i, s);
    var st1 := Put(st, i, s);
    FlushMoves(st1, i, now);
    FlushKeeps(st1, i, now);
    var st2 := FlushMessages(st1, i, now);
    MovesTrans(st, st1, st2, now, NoPoll);
    CloseMoves(st2, i, now);
    MovesTrans(st, st2, CloseClient(st2, i, now), now, NoPoll);
  }

  lemma ReadyMoves(st: State, i: nat, error: int, sends: seq<SendOutcome>, now: int)
    requires Inv(st) && i < |st.sessions|
    ensures Moves(st, XmppReady(st, i, error, sends, now), now, NoPoll)
  {
    hide SockOk, CloseClient, Writable;
    var s := st.sessions[i];
    var s' := s.(sock := Writable(s.sock, error, sends));
    PutMoves(st, Put(st, i, s'), i, s', now, NoPoll);
    WritableKeepsOk(s.sock, error, sends);
    PutKeeps(st, i, s');
    CloseMoves(Put(st, i, s'), i, now);
    MovesTrans(st, Put(st, i, s'), CloseClient(Put(st, i, s'), i, now), now, NoPoll);
  }

  lemma ClearMoves(st: State, conn: Conn, now: int)
    requires Inv(st)
    ensures Moves(st, ClearHttp(st, conn, now), now, NoPoll)
  {
    hide SockOk;
    if conn in st.callbacks {
      var i, s := ClearIs(st, conn, now);
      hide ClearHttp;
      PutMoves(st, st.(sessions := st.sessions[i := s], callbacks := st.callbacks - {conn},
                       out := st.out + [Lost(conn, Some(st.callbacks[conn]))]), i, s, now, NoPoll);
    } else {
      MovesNowhere(st, st, now);
    }
  }

  function PollOf(st: State, e: Event): Serving {
    if e.HttpRequest? && Target(st, e.request) < |st.sessions|
    then PollBy(st.sessions[Target(st, e.request)].uid, e.conn)
    else NoPoll
  }

  /** A request that creates no session. */
  lemma RequestMoves(st: State, conn: Conn, request: Request, env: Env, now: int)
    requires Inv(st) && !Creates(request, env)
    ensures Moves(st, HandleRequest(st, conn, request, env, now), now, PollOf(st, HttpRequest(conn, request, env)))
  {
    hide PollSession, SockOk, AddSession, Moves;
    var t := Target(st, request);
    if t < |st.sessions| {
      PollMoves(st, t, conn, request.message.value, env.sends, now);
    } else {
      MovesNowhere(st, HandleRequest(st, conn, request, env, now), now);
    }
  }

  /** A request that creates a session stamps it and moves no other clock. */
  lemma CreateMoves(st: State, e: Event, now: int)
    requires Inv(st) && e.HttpRequest? && Creates(e.request, e.env)
    ensures var st' := Step(st, e, now);
            && st'.timeout == st.timeout
            && forall j | 0 <= j < |st'.sessions| ::
                 var s := st'.sessions[j];
                 && !Speaks(st.out, st'.out, s.uid)
                 && (if s.uid == st.nextUid then Stamped(s, now, NoPoll) else Kept(st, s))
  {
    hide SockOk, NewSock;
    var st' := Step(st, e, now);
    forall j | 0 <= j < |st'.sessions|
      ensures if st'.sessions[j].uid == st.nextUid then Stamped(st'.sessions[j], now, NoPoll)
              else Kept(st, st'.sessions[j])
    {
      if j < |st.sessions| {
        assert st'.sessions[j] == st.sessions[j];
        IndexIs(st.sessions, j);
      }
    }
  }

  lemma {:induction false} DropDueMoves(st: State, k: nat, now: int)
    requires Inv(st) && k <= |st.sessions|
    ensures Moves(st, DropDue(st, k, now), now, NoPoll)
    decreases |st.sessions| - k
  {
    hide SockOk, Moves, DropRequest;
    if k == |st.sessions| {
      MovesNowhere(st, st, now);
    } else if RequestDue(st.sessions[k], now) {
      DropMoves(st, k, false, now);
      DropKeeps(st, k, false, now);
      DropDueMoves(DropRequest(st, k, false, now), k + 1, now);
      MovesTrans(st, DropRequest(st, k, false, now), DropDue(st, k, now), now, NoPoll);
    } else {
      DropDueMoves(st, k + 1, now);
    }
  }

  lemma {:induction false} CloseAllMoves(st: State, uids: seq<Uid>, now: int)
    requires Inv(st)
    ensures Moves(st, CloseAll(st, uids, now), now, NoPoll)
    decreases |uids|
  {
    hide SockOk, Moves, CloseClient;
    if uids == [] {
      MovesNowhere(st, st, now);
    } else {
      var i := IndexOfUid(st.sessions, uids[0]);
      if i < |st.sessions| {
        CloseMoves(st, i, now);
        CloseKeeps(st, i, now);
        CloseAllMoves(CloseClient(st, i, now), uids[1..], now);
        MovesTrans(st, CloseClient(st, i, now), CloseAll(st, uids, now), now, NoPoll);
      } else {
        CloseAllMoves(st, uids[1..], now);
      }
    }
  }

  lemma TickMoves(st: State, now: int)
    requires Inv(st)
    ensures Moves(st, CheckTimeout(st, now), now, NoPoll)
  {
    hide Inv, Moves, DropDue, CloseAll;
    var st1 := DropDue(st, 0, now);
    DropDueMoves(st, 0, now);
    DropDueKeeps(st, 0, now);
    CloseAllMoves(st1, ToClose(st.sessions, st.timeout, now), now);
    MovesTrans(st, st1, CheckTimeout(st, now), now, NoPoll);
  }

  /** Session `u` is created, polled, or spoken for by this event. */
  ghost predicate Active(st: State, e: Event, now: int, u: Uid) {
    || (e.HttpRequest? && Creates(e.request, e.env) && u == st.nextUid)
    || Acts(st, Step(st, e, now), u, PollOf(st, e))
  }

  /** A handler stamps exactly the sessions it creates, serves or speaks for,
      leaving them at most the request just received; every other session keeps
      its clock, its wait and its held connection. */
  lemma StepMoves(st: State, e: Event, now: int)
    requires Inv(st) && Enabled(st, e)
    ensures Step(st, e, now).timeout == st.timeout
    ensures forall j | 0 <= j < |Step(st, e, now).sessions| ::
              var s := Step(st, e, now).sessions[j];
              if Active(st, e, now, s.uid) then Stamped(s, now, PollOf(st, e)) else Kept(st, s)
  {
    hide HandleRequest, ClearHttp, ReadJabber, XmppReady, CloseClient, CheckTimeout, SockOk;
    if e.HttpRequest? && Creates(e.request, e.env) {
      CreateMoves(st, e, now);
    } else {
      var st' := Step(st, e, now);
      OthersMove(st, e, now);
      forall j | 0 <= j < |st'.sessions|
        ensures var s := st'.sessions[j];
                if Active(st, e, now, s.uid) then Stamped(s, now, PollOf(st, e)) else Kept(st, s)
      {
        assert Moved(st, st', st'.sessions[j], now, PollOf(st, e));
      }
    }
  }

  lemma OthersMove(st: State, e: Event, now: int)
    requires Inv(st) && Enabled(st, e) && !(e.HttpRequest? && Creates(e.request, e.env))
    ensures Moves(st, Step(st, e, now), now, PollOf(st, e))
  {
    hide HandleRequest, ClearHttp, ReadJabber, XmppReady, CloseClient, CheckTimeout, SockOk, Moves;
    match e
    case HttpRequest(conn, request, env) => RequestMoves(st, conn, request, env, now);
    case HttpClosed(conn) => ClearMoves(st, conn, now);
    case XmppData(u, items, end) => ReadMoves(st, IndexOfUid(st.sessions, u), items, end, now);
    case XmppWritable(u, error, sends) => ReadyMoves(st, IndexOfUid(st.sessions, u), error, sends, now);
    case XmppError(u) => CloseMoves(st, IndexOfUid(st.sessions, u), now);
    case Tick => TickMoves(st, now);
  }

  // ----- the arrival of the held request -----

  /** The last poll addressed to session `u` in the run. */
  function LastPoll(st: State, events: seq<Timed>, u: Uid): Option<Timed> {
    if events == [] then None
    else
      var init := events[..|events| - 1];
      var last := events[|events| - 1];
      var poll := PollOf(Run(st, init), last.event);
      if poll.PollBy? && poll.uid == u then Some(last) else LastPoll(st, init, u)
  }

  lemma ClockOf(st: State, e: Event, now: int, u: Uid)
    requires Inv(st) && Enabled(st, e) && Live(Step(st, e, now), u)
    ensures var st' := Step(st, e, now);
            var s := st'.sessions[IndexOfUid(st'.sessions, u)];
            if Active(st, e, now, u) then Stamped(s, now, PollOf(st, e)) else Kept(st, s)
  {
    hide Step, Enabled, Active, Inv;
    StepMoves(st, e, now);
  }

  /** A held request is the last one its session was polled with, on the same
      connection, and the session's timestamp is the time it arrived. */
  lemma {:induction false} HeldSinceArrival(timeout: int, events: seq<Timed>, u: Uid)
    requires Possible(Initial(timeout), events)
    requires Live(Run(Initial(timeout), events), u)
    requires var st := Run(Initial(timeout), events); st.sessions[IndexOfUid(st.sessions, u)].conn.Some?
    ensures var st := Run(Initial(timeout), events);
            var s := st.sessions[IndexOfUid(st.sessions, u)];
            var poll := LastPoll(Initial(timeout), events, u);
            && poll.Some? && poll.value.event.HttpRequest?
            && s.conn == Some(poll.value.event.conn) && s.timestamp == poll.value.now
    decreases |events|
  {
    hide Step, Enabled, Target, Speaks;
    var init := events[..|events| - 1];
    var last := events[|events| - 1];
    var before := Run(Initial(timeout), init);
    RunKeeps(timeout, init);
    ClockOf(before, last.event, last.now, u);
    if !Active(before, last.event, last.now, u) {
      HeldSinceArrival(timeout, init, u);
    }
  }

  /** The time of the last event that created session `u`, polled it, or sent or
      lost something on its behalf. */
  ghost function LastActivity(st: State, events: seq<Timed>, u: Uid): Option<int> {
    if events == [] then None
    else
      var init, last := events[..|events| - 1], events[|events| - 1];
      if Active(Run(st, init), last.event, last.now, u) then Some(last.now) else LastActivity(st, init, u)
  }

  /** The timestamp of a live session is the time of its last activity. */
  lemma {:induction false} TimestampExact(timeout: int, events: seq<Timed>, u: Uid)
    requires Possible(Initial(timeout), events)
    requires Live(Run(Initial(timeout), events), u)
    ensures var st := Run(Initial(timeout), events);
            LastActivity(Initial(timeout), events, u) == Some(st.sessions[IndexOfUid(st.sessions, u)].timestamp)
    decreases |events|
  {
    hide Step, Enabled, Active;
    if events != [] {
      var init, last := events[..|events| - 1], events[|events| - 1];
      var before := Run(Initial(timeout), init);
      RunKeeps(timeout, init);
      hide Inv;
      ClockOf(before, last.event, last.now, u);
      if !Active(before, last.event, last.now, u) {
        TimestampExact(timeout, init, u);
      }
    }
  }
}
