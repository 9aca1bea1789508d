/** The session broker of src/jabber_bind.c as a state machine on values: one
    function per handler, and `Step`, which picks the handler of an event.
    Class `JabberBind` runs the same handlers on the heap and is proved to
    follow `Step`. */
module BrokerModel {
  import opened Common
  import opened SocketModel

  /** Names one HTTP connection. */
  type Conn = nat

  /** Names one JabberClient record: the number of sessions created before it. */
  type Uid = nat

  /** A stanza is its serialised text. */
  type Stanza = Bytes

  datatype ErrorCode = SidNotFound | BadFormat | ConnectionFailed

  /** `text` is what goes between the tags of a message body. */
  datatype Body =
    | Messages(stanzas: seq<Stanza>, text: Bytes)
    | Empty
    | Terminate
    | Created(sid: nat)
    | Error(code: ErrorCode)
    | StatusPage(clients: int, maxClients: int)

  datatype Session = Session(
    uid: Uid, sid: nat, conn: Option<Conn>, queue: seq<Stanza>, alive: bool,
    timestamp: int, wait: int, sock: Sock)

  /** What the broker does to the outside; `owner` is the session an answer
      belongs to, if any. */
  datatype Out =
    | Answer(conn: Conn, body: Body, owner: Option<Uid>)
    | Lost(conn: Conn, owner: Option<Uid>)

  /** `callbacks` maps a connection to the session its close callback points to;
      `out` is everything done to the outside so far; `ended` has the XMPP socket
      of every session that is over, as its deletion left it. */
  datatype State = State(
    sessions: seq<Session>, callbacks: map<Conn, Uid>, timeout: int,
    count: int, maxCount: int, nextUid: Uid, out: seq<Out>, ended: map<Uid, Sock>)

  function Initial(timeout: int): State {
    State([], map[], timeout, 0, 0, 0, [], map[])
  }

  // ----- events -----

  datatype SidAttribute = NoSid | BadSid | Sid(value: nat)

  /** The parts of a request body the broker looks at. */
  datatype Message = Message(
    sid: SidAttribute, hasRid: bool, wait: Option<int>, to: Option<Bytes>,
    terminate: bool, stanzas: seq<Stanza>)

  datatype Request = Get | Post(message: Option<Message>) | OtherMethod

  /** Choices of the environment while a request is handled: the sid the retry
      loop ends with, library outcomes, and kernel answers.  `connectOk` stands for
      name resolution and the creation of the descriptor; a `connect` that fails at
      once after that is not part of the model. */
  datatype Env = Env(newSid: nat, parserOk: bool, connectOk: bool, sends: seq<SendOutcome>)

  /** What the stream parser reports for one stanza. */
  datatype StanzaEvent = Normal(stanza: Stanza) | ErrorOrStop | Ignored

  /** How the read loop of `jc_read_jabber` ends. */
  datatype ReadEnd = NothingLeft | SocketEnded | ParseFailed

  datatype Event =
    | HttpRequest(conn: Conn, request: Request, env: Env)
    | HttpClosed(conn: Conn)
    | XmppData(uid: Uid, items: seq<StanzaEvent>, end: ReadEnd)
    | XmppWritable(uid: Uid, error: int, sends: seq<SendOutcome>)
    | XmppError(uid: Uid)
    | Tick

  // ----- lookups -----

  /** The position of session `u`, or the length when it is not live. */
  function IndexOfUid(sessions: seq<Session>, u: Uid): (i: nat)
    ensures i <= |sessions|
    ensures i < |sessions| ==> sessions[i].uid == u
    ensures forall k | 0 <= k < i :: sessions[k].uid != u
  {
    if sessions == [] || sessions[0].uid == u then 0 else 1 + IndexOfUid(sessions[1..], u)
  }

  /** What the sid hash answers: the position of the session with this sid. */
  function IndexOfSid(sessions: seq<Session>, sid: nat): (i: nat)
    ensures i <= |sessions|
    ensures i < |sessions| ==> sessions[i].sid == sid
    ensures forall k | 0 <= k < i :: sessions[k].sid != sid
  {
    if sessions == [] || sessions[0].sid == sid then 0 else 1 + IndexOfSid(sessions[1..], sid)
  }

  predicate Live(st: State, u: Uid) {
    IndexOfUid(st.sessions, u) < |st.sessions|
  }

  /** The XMPP socket of a session, live or over. */
  function SocketOf(st: State, u: Uid): Option<Sock> {
    if Live(st, u) then Some(st.sessions[IndexOfUid(st.sessions, u)].sock)
    else if u in st.ended then Some(st.ended[u])
    else None
  }

  /** The socket of the session is registered with the socket monitor: class
      `Sockets.Socket` keeps its record registered exactly while it is open. */
  predicate Watched(st: State, u: Uid) {
    SocketOf(st, u).Some? && SocketOf(st, u).value.open
  }

  // ----- handlers -----

  function Put(st: State, i: nat, s: Session): State
    requires i < |st.sessions|
  {
    st.(sessions := st.sessions[i := s])
  }

  /** `hs_answer_request`: send the body and clear the close callback. */
  function AnswerOn(st: State, conn: Conn, body: Body, owner: Option<Uid>): State {
    st.(callbacks := st.callbacks - {conn}, out := st.out + [Answer(conn, body, owner)])
  }

  /** `jc_flush_messages` */
  function FlushMessages(st: State, i: nat, now: int): (r: State)
    requires i < |st.sessions|
    ensures |r.sessions| == |st.sessions|
  {
    var s := st.sessions[i];
    if s.conn.Some? && s.queue != [] then
      AnswerOn(Put(st, i, s.(queue := [], conn := None, timestamp := now)),
               s.conn.value, Messages(s.queue, Concat(s.queue)), Some(s.uid))
    else st
  }

  /** `jc_drop_request` */
  function DropRequest(st: State, i: nat, terminate: bool, now: int): (r: State)
    requires i < |st.sessions| && st.sessions[i].conn.Some?
    ensures |r.sessions| == |st.sessions|
  {
    var s := st.sessions[i];
    AnswerOn(Put(st, i, s.(conn := None, timestamp := now)),
             s.conn.value, if terminate then Terminate else Empty, Some(s.uid))
  }

  /** The part of `jb_close_client` that deletes the socket, takes the client off
      list, hash and count, and frees it. */
  function Remove(st: State, i: nat): State
    requires i < |st.sessions|
  {
    var s := st.sessions[i];
    st.(sessions := st.sessions[..i] + st.sessions[i + 1..], count := st.count - 1,
        ended := st.ended[s.uid := Close(s.sock)])
  }

  /** `jb_close_client` */
  function CloseClient(st: State, i: nat, now: int): (r: State)
    requires i < |st.sessions|
    ensures |r.sessions| == |st.sessions| - 1
  {
    Remove(if st.sessions[i].conn.Some? then DropRequest(st, i, true, now) else st, i)
  }

  function Hold(st: State, i: nat, conn: Conn, now: int): (r: State)
    requires i < |st.sessions|
    ensures |r.sessions| == |st.sessions|
  {
    Put(st, i, st.sessions[i].(conn := Some(conn), timestamp := now))
      .(callbacks := st.callbacks[conn := st.sessions[i].uid])
  }

  /** `jc_set_http` */
  function SetHttp(st: State, i: nat, conn: Conn, now: int): (r: State)
    requires i < |st.sessions|
    ensures |r.sessions| == |st.sessions|
  {
    var st1 := if st.sessions[i].conn.Some? then DropRequest(st, i, false, now) else st;
    FlushMessages(Hold(st1, i, conn, now), i, now)
  }

  /** `jc_clear_http`, called when a connection closes with its callback set. */
  function ClearHttp(st: State, conn: Conn, now: int): State {
    if conn in st.callbacks then
      var i := IndexOfUid(st.sessions, st.callbacks[conn]);
      var st1 := if i < |st.sessions| then Put(st, i, st.sessions[i].(conn := None, timestamp := now)) else st;
      st1.(callbacks := st.callbacks - {conn}, out := st.out + [Lost(conn, Some(st.callbacks[conn]))])
    else st
  }

  function Report(st: State, conn: Conn, code: ErrorCode): State {
    AnswerOn(st, conn, Error(code), None)
  }

  function JabberHeader(host: Bytes): Bytes {
    "<stream:stream xmlns='jabber:client' xmlns:stream='http://etherx.jabber.org/streams' to='" +
    host + "' xml:lang='en'>"
  }

  /** The XMPP socket of a new session: dialled, header queued, data wanted. */
  function NewSock(host: Bytes): Sock {
    WantData(Send(Dialled(), Some(JabberHeader(host)), false, []), true)
  }

  /** The success path of `jb_connect_client` up to the answer. */
  function AddSession(st: State, sid: nat, wait: int, host: Bytes, now: int): State {
    st.(sessions := st.sessions + [Session(st.nextUid, sid, None, [], true, now, wait, NewSock(host))],
        nextUid := st.nextUid + 1,
        count := st.count + 1,
        maxCount := if st.count + 1 > st.maxCount then st.count + 1 else st.maxCount)
  }

  predicate Acceptable(m: Message, env: Env) {
    m.wait.Some? && m.to.Some? && m.hasRid && env.parserOk && env.connectOk
  }

  /** `jb_connect_client` */
  function ConnectClient(st: State, conn: Conn, m: Message, env: Env, now: int): State {
    if m.wait.None? || m.to.None? || !m.hasRid then Report(st, conn, BadFormat)
    else if !env.parserOk || !env.connectOk then Report(st, conn, ConnectionFailed)
    else
      AnswerOn(AddSession(st, env.newSid, m.wait.value * 1000, m.to.value, now), conn, Created(env.newSid), None)
  }

  /** The stanza loop of a POST followed by the flushing `sock_send`. */
  function SendStanzas(st: State, i: nat, stanzas: seq<Stanza>, sends: seq<SendOutcome>): (r: State)
    requires i < |st.sessions|
    ensures |r.sessions| == |st.sessions|
  {
    var s := st.sessions[i];
    Put(st, i, s.(sock := Send(SendAll(s.sock, stanzas), None, false, sends)))
  }

  /** The part of `jb_handle_http_post` for a known sid. */
  function PollSession(st: State, i: nat, conn: Conn, m: Message, sends: seq<SendOutcome>, now: int): State
    requires i < |st.sessions|
  {
    var st1 := SendStanzas(SetHttp(st, i, conn, now), i, m.stanzas, sends);
    if m.terminate then CloseClient(st1, i, now) else st1
  }

  /** `jb_handle_http_post` */
  function HandlePost(st: State, conn: Conn, message: Option<Message>, env: Env, now: int): State {
    match message
    case None => Report(st, conn, BadFormat)
    case Some(m) =>
      match m.sid
      case NoSid => ConnectClient(st, conn, m, env, now)
      case BadSid => Report(st, conn, BadFormat)
      case Sid(sid) =>
        if !m.hasRid then Report(st, conn, BadFormat)
        else
          var i := IndexOfSid(st.sessions, sid);
          if i == |st.sessions| then Report(st, conn, SidNotFound)
          else PollSession(st, i, conn, m, env.sends, now)
  }

  /** `jb_handle_request` */
  function HandleRequest(st: State, conn: Conn, request: Request, env: Env, now: int): State {
    match request
    case Get => AnswerOn(st, conn, StatusPage(st.count, st.maxCount), None)
    case Post(message) => HandlePost(st, conn, message, env, now)
    case OtherMethod => Report(st, conn, BadFormat)
  }

  /** `jc_handle_stanza` */
  function HandleStanza(s: Session, item: StanzaEvent): Session {
    match item
    case Normal(stanza) => s.(queue := s.queue + [stanza])
    case ErrorOrStop => s.(alive := false)
    case Ignored => s
  }

  function HandleStanzas(s: Session, items: seq<StanzaEvent>): Session
    decreases |items|
  {
    if items == [] then s else HandleStanzas(HandleStanza(s, items[0]), items[1..])
  }

  /** The session after the read loop of `jc_read_jabber`. */
  function AfterRead(s: Session, items: seq<StanzaEvent>, end: ReadEnd): Session {
    var s1 := HandleStanzas(s, items);
    if end.SocketEnded? then s1.(sock := Close(s1.sock)) else s1
  }

  /** `jc_read_jabber` */
  function ReadJabber(st: State, i: nat, items: seq<StanzaEvent>, end: ReadEnd, now: int): State
    requires i < |st.sessions|
  {
    var st1 := FlushMessages(Put(st, i, AfterRead(st.sessions[i], items, end)), i, now);
    var s := st1.sessions[i];
    if s.sock.status != Connected || end.ParseFailed? || !s.alive then CloseClient(st1, i, now) else st1
  }

  /** Readiness for writing: finish the connect (`jc_answer_creation`) or flush. */
  function XmppReady(st: State, i: nat, error: int, sends: seq<SendOutcome>, now: int): State
    requires i < |st.sessions|
  {
    var s := st.sessions[i];
    var st1 := Put(st, i, s.(sock := Writable(s.sock, error, sends)));
    if s.sock.status == Connecting && error != 0 then CloseClient(st1, i, now) else st1
  }

  // ----- time -----

  predicate RequestDue(s: Session, now: int) {
    s.conn.Some? && now - s.timestamp >= s.wait
  }

  predicate SessionDue(s: Session, timeout: int, now: int) {
    s.conn.None? && now - s.timestamp >= timeout
  }

  /** Time left until something must be done about the session. */
  function Remaining(s: Session, timeout: int, now: int): int {
    if s.conn.Some? then s.timestamp + s.wait - now else s.timestamp + timeout - now
  }

  /** `jb_closest_timeout` from position `k` on, starting with `closest`. */
  function ClosestFrom(st: State, k: nat, closest: int, now: int): int
    requires k <= |st.sessions|
    decreases |st.sessions| - k
  {
    if k == |st.sessions| then closest
    else
      var left := Remaining(st.sessions[k], st.timeout, now);
      ClosestFrom(st, k + 1, if left < closest then left else closest, now)
  }

  function ClosestTimeout(st: State, now: int): int {
    ClosestFrom(st, 0, st.timeout, now)
  }

  /** The scan of `jb_check_timeout`, from position `k` on. */
  function DropDue(st: State, k: nat, now: int): (r: State)
    requires k <= |st.sessions|
    ensures |r.sessions| == |st.sessions|
    decreases |st.sessions| - k
  {
    if k == |st.sessions| then st
    else DropDue(if RequestDue(st.sessions[k], now) then DropRequest(st, k, false, now) else st, k + 1, now)
  }

  /** The list `to_close` the scan collects. */
  function ToClose(sessions: seq<Session>, timeout: int, now: int): seq<Uid> {
    if sessions == [] then []
    else (if SessionDue(sessions[0], timeout, now) then [sessions[0].uid] else []) +
         ToClose(sessions[1..], timeout, now)
  }

  function CloseAll(st: State, uids: seq<Uid>, now: int): State
    decreases |uids|
  {
    if uids == [] then st
    else
      var i := IndexOfUid(st.sessions, uids[0]);
      CloseAll(if i < |st.sessions| then CloseClient(st, i, now) else st, uids[1..], now)
  }

  /** `jb_check_timeout` */
  function CheckTimeout(st: State, now: int): State {
    CloseAll(DropDue(st, 0, now), ToClose(st.sessions, st.timeout, now), now)
  }

  // ----- runs -----

  /** One event, handled at clock value `now`; events about a session that is
      gone cannot happen and change nothing. */
  function Step(st: State, e: Event, now: int): State {
    match e
    case HttpRequest(conn, request, env) => HandleRequest(st, conn, request, env, now)
    case HttpClosed(conn) => ClearHttp(st, conn, now)
    case XmppData(u, items, end) =>
      if Live(st, u) then ReadJabber(st, IndexOfUid(st.sessions, u), items, end, now) else st
    case XmppWritable(u, error, sends) =>
      if Live(st, u) then XmppReady(st, IndexOfUid(st.sessions, u), error, sends, now) else st
    case XmppError(u) =>
      if Live(st, u) then CloseClient(st, IndexOfUid(st.sessions, u), now) else st
    case Tick => CheckTimeout(st, now)
  }

  /** An event the environment can really produce in this state: a fresh sid
      comes out of the retry loop, and a socket callback runs only while the
      socket of its session is registered, for data only with an interest in it.  That the session is live then is a
      result, not a premise: `BrokerInvariant.WatchedIsLive`. */
  predicate Enabled(st: State, e: Event) {
    match e
    case HttpRequest(_, _, env) => IndexOfSid(st.sessions, env.newSid) == |st.sessions|
    case XmppData(u, _, _) =>
      Watched(st, u) && SocketOf(st, u).value.status == Connected && PollIn in SocketOf(st, u).value.mask
    case XmppWritable(u, _, _) => Watched(st, u)
    case XmppError(u) => Watched(st, u)
    case _ => true
  }

  datatype Timed = Timed(now: int, event: Event)

  /** The state after a list of events, the last one taken off at each step. */
  function Run(st: State, events: seq<Timed>): State {
    if events == [] then st
    else
      var last := events[|events| - 1];
      Step(Run(st, events[..|events| - 1]), last.event, last.now)
  }

  predicate Possible(st: State, events: seq<Timed>) {
    events == [] ||
    (Possible(st, events[..|events| - 1]) &&
     Enabled(Run(st, events[..|events| - 1]), events[|events| - 1].event))
  }
}
