/** The session broker of src/jabber_bind.c on the heap: client records linked
    from a list, a hash table and the close callbacks of connections.  The ghost
    field `model` is the value `BrokerModel` describes; every handler is proved
    to take it where the handler function of the model takes it. */
module JabberBind {
  import opened Common
  import opened SocketModel
  import opened BrokerModel
  import BM = BrokerModel
  import BI = BrokerInvariant
  import BP = BrokerPairing
  import BL = BrokerLedger
  import BS = BrokerSockets
  import BD = BrokerDelivery
  import BT = BrokerTime
  import BQ = BrokerPromises
  import CL = CircularList
  import HT = HashTable
  import Primes

  /** The part of an HTTP connection the broker sees: whether it is still there,
      the close callback, which is always `jc_clear_http` with `closeData` or
      none, and what has been handed to `hs_answer_request` for it. */
  class HttpConnection {
    const id: Conn
    var open: bool
    var closeData: JabberClient?
    var answers: seq<Body>

    constructor (id: Conn)
      ensures this.id == id && open && closeData == null && answers == []
    {
      this.id, open, closeData, answers := id, true, null, [];
    }
  }

  class JabberClient {
    const sid: nat
    const wait: int
    ghost const uid: Uid
    var connection: HttpConnection?
    var outputQueue: seq<Stanza>
    var alive: bool
    var timestamp: int
    var it: CL.Node<JabberClient?>
    var sock: Sock

    constructor (sid: nat, wait: int, ghost uid: Uid, now: int, it: CL.Node<JabberClient?>, sock: Sock)
      ensures this.sid == sid && this.wait == wait && this.uid == uid && this.it == it
      ensures connection == null && outputQueue == [] && alive && timestamp == now && this.sock == sock
    {
      this.sid, this.wait, this.uid, this.it, this.sock := sid, wait, uid, it, sock;
      connection, outputQueue, alive, timestamp := null, [], true, now;
    }

    ghost function Held(): Option<Conn>
      reads this`connection
    {
      if connection == null then None else Some(connection.id)
    }

    /** The record as a value. */
    ghost function Shown(): Session
      reads this
    {
      Session(uid, sid, Held(), outputQueue, alive, timestamp, wait, sock)
    }
  }

  /** The bodies sent on one connection, in order. */
  ghost function AnswersTo(out: seq<Out>, conn: Conn): seq<Body> {
    if out == [] then []
    else
      var last := out[|out| - 1];
      AnswersTo(out[..|out| - 1], conn) + (if last.Answer? && last.conn == conn then [last.body] else [])
  }

  lemma AnswersSnoc(out: seq<Out>, o: Out, conn: Conn)
    ensures AnswersTo(out + [o], conn) == AnswersTo(out, conn) + (if o.Answer? && o.conn == conn then [o.body] else [])
  {
    assert (out + [o])[..|out|] == out;
  }

  /** The buffer of `jc_flush_messages`: the serialised stanzas, one after the
      other, and a terminating zero. */
  method JoinStanzas(xmls: seq<Stanza>) returns (buffer: array<char>)
    ensures buffer[..] == Concat(xmls) + ['\0']
  {
    var size := 0;
    for i := 0 to |xmls|
      invariant size == |Concat(xmls[..i])|
    {
      assert xmls[..i + 1] == xmls[..i] + [xmls[i]];
      ConcatSnoc(xmls[..i], xmls[i]);
      size := size + |xmls[i]|;
    }
    assert xmls[..|xmls|] == xmls;
    buffer := new char[size + 1];
    var ptr := 0;
    for i := 0 to |xmls|
      invariant ptr == |Concat(xmls[..i])| <= size && buffer.Length == size + 1
      invariant buffer[..ptr] == Concat(xmls[..i])
    {
      var xml := xmls[i];
      ghost var done := buffer[..ptr];
      PrefixFits(xmls, i);
      forall j | 0 <= j < |xml| {
        buffer[ptr + j] := xml[j];
      }
      assert buffer[..ptr] == done && buffer[ptr..ptr + |xml|] == xml;
      assert buffer[..ptr + |xml|] == buffer[..ptr] + buffer[ptr..ptr + |xml|];
      ptr := ptr + |xml|;
    }
    buffer[ptr] := '\0';
    assert buffer[..] == buffer[..ptr] + [buffer[ptr]];
  }

  lemma PrefixFits(xmls: seq<Stanza>, i: nat)
    requires i < |xmls|
    ensures Concat(xmls[..i + 1]) == Concat(xmls[..i]) + xmls[i]
    ensures |Concat(xmls[..i + 1])| <= |Concat(xmls)|
  {
    assert xmls[..i + 1] == xmls[..i] + [xmls[i]];
    ConcatSnoc(xmls[..i], xmls[i]);
    ConcatAppend(xmls[..i + 1], xmls[i + 1..]);
    assert xmls[..i + 1] + xmls[i + 1..] == xmls;
  }

  /** Connection `c` shows the given callbacks and answers. */
  ghost predicate ConnShows(c: HttpConnection, among: seq<JabberClient>, callbacks: map<Conn, Uid>, out: seq<Out>)
    reads c`closeData, c`answers
  {
    && (c.closeData == null <==> c.id !in callbacks)
    && (c.closeData != null ==> c.closeData in among && c.closeData.uid == callbacks[c.id])
    && c.answers == AnswersTo(out, c.id)
  }

  function HashSid(sid: nat): nat {
    sid % 4294967291
  }

  /** One callback of the poll, with the objects its user data points to. */
  datatype Callback =
    | RequestOn(conn: HttpConnection, request: Request, env: Env)
    | ConnectionEnd(conn: HttpConnection)
    | StanzasFor(client: JabberClient, items: seq<StanzaEvent>, end: ReadEnd)
    | WritableFor(client: JabberClient, error: int, sends: seq<SendOutcome>)
    | ErrorOn(client: JabberClient)
    | TimeCheck
  {
    /** The event of the model. */
    ghost function Event(): Event {
      match this
      case RequestOn(conn, request, env) => HttpRequest(conn.id, request, env)
      case ConnectionEnd(conn) => HttpClosed(conn.id)
      case StanzasFor(client, items, end) => XmppData(client.uid, items, end)
      case WritableFor(client, error, sends) => XmppWritable(client.uid, error, sends)
      case ErrorOn(client) => XmppError(client.uid)
      case TimeCheck => Tick
    }

    /** The event reaches its handler: the record it came through still has its
        callback, that is, its socket has not been closed, and stanzas are read
        only from a connected socket with an interest in them.  The timeout check needs no socket. */
    predicate Reaches()
      reads match this
            case RequestOn(conn, _, _) => {conn as object}
            case ConnectionEnd(conn) => {conn as object}
            case StanzasFor(client, _, _) => {client as object}
            case WritableFor(client, _, _) => {client as object}
            case ErrorOn(client) => {client as object}
            case TimeCheck => {}
    {
      match this
      case RequestOn(conn, _, _) => conn.open
      case ConnectionEnd(conn) => conn.open
      case StanzasFor(client, _, _) =>
        client.sock.open && client.sock.status == Connected && PollIn in client.sock.mask
      case WritableFor(client, _, _) => client.sock.open
      case ErrorOn(client) => client.sock.open
      case TimeCheck => true
    }
  }

  class JabberBind {
    const connections: CL.List<JabberClient?>
    const sids: HT.Table<nat, JabberClient>
    const sessionTimeout: int
    var clientCount: int
    var maxClientCount: int
    ghost var model: State
    ghost var clients: seq<JabberClient>
    ghost var conns: set<HttpConnection>
    ghost var everyone: set<JabberClient>
    ghost var history: seq<Timed>

    /** Each live client is in the list once, at its own stored iterator. */
    ghost predicate ListOk()
      reads this`clients, connections, connections.head, connections.nodes, clients`it
    {
      && connections.Valid()
      && |connections.nodes| == |clients|
      && (forall i | 0 <= i < |clients| ::
            connections.nodes[i].value == clients[i] && clients[i].it == connections.nodes[i])
    }

    /** The sid hash maps exactly the live clients' sids to them. */
    ghost predicate HashOk()
      reads this`clients, sids, sids.table, sids.nodes
    {
      && sids.Valid() && sids.unique
      && (forall i | 0 <= i < |clients| ::
            clients[i].sid in sids.Contents() && sids.Contents()[clients[i].sid] == clients[i])
      && (forall k | k in sids.Contents() :: sids.Contents()[k] in clients && sids.Contents()[k].sid == k)
    }

    /** The client records, except possibly number `k`, are those of the model. */
    ghost predicate ClientsShow(sessions: seq<Session>, k: nat)
      reads this`clients, clients
    {
      && NoRepeats(clients)
      && |clients| == |sessions|
      && (forall i | 0 <= i < |clients| && i != k :: clients[i].Shown() == sessions[i])
    }

    /** Every connection shows the given callbacks, to clients among those
        given, and the given answers. */
    ghost predicate ConnsShowAmong(among: seq<JabberClient>, callbacks: map<Conn, Uid>, out: seq<Out>)
      reads this`conns, conns`closeData, conns`answers
    {
      && (forall c, d | c in conns && d in conns && c.id == d.id :: c == d)
      && (forall c | c in conns :: ConnShows(c, among, callbacks, out))
    }

    ghost predicate ConnsShow(callbacks: map<Conn, Uid>, out: seq<Out>)
      reads this`clients, this`conns, conns`closeData, conns`answers
    {
      ConnsShowAmong(clients, callbacks, out)
    }

    /** Only connections of the HTTP server are held. */
    ghost predicate HeldOk()
      reads this`clients, this`conns, clients`connection
    {
      forall i | 0 <= i < |clients| && clients[i].connection != null :: clients[i].connection in conns
    }

    ghost predicate CountersShow(count: int, maxCount: int, timeout: int)
      reads this`clientCount, this`maxClientCount
    {
      clientCount == count && maxClientCount == maxCount && sessionTimeout == timeout
    }

    /** Valid, except that the record of client `k` may be ahead of the model. */
    ghost predicate ValidBut(k: nat)
      reads this`model, this`clients, this`conns, this`clientCount, this`maxClientCount
      reads connections, connections.head, connections.nodes, sids, sids.table, sids.nodes
      reads clients, conns`closeData, conns`answers
    {
      && ListOk() && HashOk() && HeldOk()
      && ConnsShow(model.callbacks, model.out)
      && ClientsShow(model.sessions, k)
      && CountersShow(model.count, model.maxCount, model.timeout)
      && BI.Inv(model)
    }

    ghost predicate Valid()
      reads this`model, this`clients, this`conns, this`clientCount, this`maxClientCount
      reads connections, connections.head, connections.nodes, sids, sids.table, sids.nodes
      reads clients, conns`closeData, conns`answers
    {
      ValidBut(|clients|)
    }

    /** Client `k` still has the names and the connection the model knows. */
    ghost predicate InStep(k: nat)
      reads this`clients, this`model, clients
    {
      && k < |clients| == |model.sessions|
      && clients[k].uid == model.sessions[k].uid && clients[k].sid == model.sessions[k].sid
      && clients[k].Held() == model.sessions[k].conn
      && SockOk(clients[k].sock)
    }

    /** Every client that ever was is live or has its socket closed, that is,
        unregistered: no event can reach a client that is gone. */
    ghost predicate Buried()
      reads this`clients, this`everyone, everyone`sock
    {
      && (forall i | 0 <= i < |clients| :: clients[i] in everyone)
      && (forall c | c in everyone :: c in clients || !c.sock.open)
    }

    /** The broker has come where the run of its history leads, and that run is
        possible: every result about runs is one about the heap. */
    ghost predicate Lived()
      reads this`model, this`history
    {
      Possible(Initial(sessionTimeout), history) && model == Run(Initial(sessionTimeout), history)
    }

    /** Of the clients before, those who left have closed sockets. */
    ghost predicate LeftClosed(before: seq<JabberClient>)
      reads this`clients, before`sock
    {
      forall i | 0 <= i < |before| :: before[i] in clients || !before[i].sock.open
    }

    /** No object has joined the broker. */
    twostate predicate Shrunk()
      reads this`clients, this`conns, this`everyone, connections`nodes, sids`table, sids`nodes
    {
      && conns == old(conns) && everyone == old(everyone)
      && (forall i | 0 <= i < |clients| :: clients[i] in old(clients))
      && (forall i | 0 <= i < |connections.nodes| :: connections.nodes[i] in old(connections.nodes))
      && (forall n | n in sids.nodes :: n in old(sids.nodes))
      && sids.table == old(sids.table)
    }

    /** Only new nodes have joined the list and the hash. */
    twostate predicate NodesGrown()
      reads connections`nodes, sids`table, sids`nodes
    {
      && (forall i | 0 <= i < |connections.nodes| ::
            connections.nodes[i] in old(connections.nodes) || fresh(connections.nodes[i]))
      && (forall n | n in sids.nodes :: n in old(sids.nodes) || fresh(n))
      && (sids.table == old(sids.table) || fresh(sids.table))
    }

    /** Only new objects have joined the broker. */
    twostate predicate Grown()
      reads this`clients, this`conns, this`everyone, connections`nodes, sids`table, sids`nodes
    {
      && NodesGrown()
      && conns == old(conns)
      && old(everyone) <= everyone && (forall c | c in everyone :: c in old(everyone) || c in clients)
      && (forall i | 0 <= i < |clients| :: clients[i] in old(clients) || (fresh(clients[i]) && clients[i] in everyone))
    }

    /** `jb_new` */
    constructor (sessionTimeout: int)
      ensures Valid() && Buried() && Lived() && model == Initial(sessionTimeout) && history == []
      ensures clients == [] && conns == {} && everyone == {}
      ensures fresh(connections) && fresh(connections.head) && connections.nodes == []
      ensures fresh(sids) && fresh(sids.table) && sids.nodes == {} && sids.elementCount == 0
    {
      this.sessionTimeout := sessionTimeout;
      connections := new CL.List<JabberClient?>(null);
      sids := new HT.Table<nat, JabberClient>(HashSid);
      clientCount, maxClientCount := 0, 0;
      model, clients, conns, everyone, history := Initial(sessionTimeout), [], {}, {}, [];
    }

    /** `hs_answer_request`: hand over the body and clear the close callback. */
    method AnswerRequest(conn: HttpConnection, body: Body, ghost owner: Option<Uid>)
      requires conn in conns && ConnsShow(model.callbacks, model.out)
      modifies this`model, conn
      ensures model == AnswerOn(old(model), conn.id, body, owner)
      ensures ConnsShow(model.callbacks, model.out)
    {
      hide AnswersTo;
      ghost var before := model;
      conn.answers := conn.answers + [body];
      conn.closeData := null;
      model := AnswerOn(model, conn.id, body, owner);
      forall c | c in conns ensures ConnShows(c, clients, model.callbacks, model.out) {
        assert old(ConnShows(c, clients, before.callbacks, before.out));
        AnswersSnoc(before.out, Answer(conn.id, body, owner), c.id);
      }
    }

    /** Bring the model up to date with the record of client `i`. */
    ghost method Sync(i: nat)
      requires ValidBut(i) && InStep(i)
      modifies this`model
      ensures Valid() && model == Put(old(model), i, clients[i].Shown())
    {
      hide BI.Inv, SockOk, ConnsShow, ListOk, HashOk;
      BI.PutKeeps(model, i, clients[i].Shown());
      model := Put(model, i, clients[i].Shown());
    }

    /** The model takes over the record of client `i`. */
    ghost method PutRecord(i: nat)
      requires ListOk() && HashOk() && HeldOk() && ConnsShow(model.callbacks, model.out)
      requires CountersShow(model.count, model.maxCount, model.timeout)
      requires i < |clients| && i < |model.sessions|
      requires ClientsShow(model.sessions[i := clients[i].Shown()], |clients|)
      requires BI.Inv(Put(model, i, clients[i].Shown()))
      modifies this`model
      ensures Valid() && model == Put(old(model), i, clients[i].Shown())
    {
      hide BI.Inv, SockOk, ConnsShow, ListOk, HashOk, HeldOk, ClientsShow;
      model := Put(model, i, clients[i].Shown());
    }

    /** What every end of a held request does to the record: no connection any
        more, and a new timestamp. */
    method LetGo(client: JabberClient, now: int, ghost sessions: seq<Session>, ghost i: nat)
      requires ClientsShow(sessions, i) && HeldOk() && i < |clients| && clients[i] == client
      modifies client`connection, client`timestamp
      ensures client.Shown() == old(client.Shown()).(conn := None, timestamp := now)
      ensures ClientsShow(sessions[i := client.Shown()], |clients|) && HeldOk()
    {
      client.connection := null;
      client.timestamp := now;
    }

    /** Answer the held request of a client and let go of its connection. */
    method Release(client: JabberClient, body: Body, now: int, ghost i: nat)
      requires ValidBut(i) && InStep(i) && clients[i] == client && client.connection != null
      modifies this`model, client`connection, client`timestamp, client.connection
      ensures Valid()
      ensures client.Shown() == old(client.Shown()).(conn := None, timestamp := now)
      ensures model == AnswerOn(Put(old(model), i, client.Shown()), old(client.connection.id), body, Some(client.uid))
    {
      hide BI.Inv, SockOk, ConnsShow, ListOk, HashOk;
      BI.ReleaseKeeps(model, i, client.Shown().(conn := None, timestamp := now), body);
      AnswerRequest(client.connection, body, Some(client.uid));
      hide ClientsShow, HeldOk;
      LetGo(client, now, model.sessions, i);
      PutRecord(i);
    }

    /** `jc_flush_messages` */
    method FlushMessages(client: JabberClient, now: int, ghost i: nat)
      requires ValidBut(i) && InStep(i) && clients[i] == client
      modifies this`model, client`connection, client`timestamp, client`outputQueue, client.connection
      ensures Valid()
      ensures model == BM.FlushMessages(Put(old(model), i, old(client.Shown())), i, now)
      ensures client.sock == old(client.sock) && client.alive == old(client.alive)
    {
      hide BI.Inv, SockOk, ConnsShow, ListOk, HashOk;
      if client.connection != null && client.outputQueue != [] {
        var messages := client.outputQueue;
        client.outputQueue := [];
        var buffer := JoinStanzas(messages);
        var text := buffer[..buffer.Length - 1];
        assert text == Concat(messages);
        Release(client, Messages(messages, text), now, i);
      } else {
        Sync(i);
      }
    }

    /** `jc_drop_request` */
    method DropRequest(client: JabberClient, terminate: bool, now: int, ghost i: nat)
      requires Valid() && i < |clients| && clients[i] == client && client.connection != null
      modifies this`model, client`connection, client`timestamp, client.connection
      ensures Valid() && model == BM.DropRequest(old(model), i, terminate, now)
    {
      hide BI.Inv, SockOk, ConnsShow, ListOk, HashOk;
      Steady(i);
      var body := if terminate then Terminate else Empty;
      Release(client, body, now, i);
    }

    /** In a valid broker every record is in step with the model. */
    lemma Steady(i: nat)
      requires Valid() && i < |clients|
      ensures InStep(i) && ValidBut(i) && clients[i].Shown() == model.sessions[i]
    {
      hide SockOk, ConnsShow, ListOk, HashOk;
      assert clients[i].Shown() == model.sessions[i];
    }

    /** Take client `i` off the list and out of the list of live clients. */
    method Unlist(client: JabberClient, ghost i: nat)
      requires ListOk() && i < |clients| && clients[i] == client
      modifies this`clients, connections`nodes, connections.head, connections.nodes
      ensures ListOk() && clients == RemoveAt(old(clients), i)
    {
      connections.Neighbours(i);
      var gone := connections.Erase(client.it, i);
      clients := RemoveAt(clients, i);
    }

    /** Take a sid out of the hash once its client is off the list. */
    method Unhash(client: JabberClient, ghost before: seq<JabberClient>, ghost i: nat)
      requires sids.Valid() && sids.unique && i < |before| && before[i] == client && clients == RemoveAt(before, i)
      requires forall k | 0 <= k < |before| ::
                 before[k].sid in sids.Contents() && sids.Contents()[before[k].sid] == before[k]
      requires forall k | k in sids.Contents() :: sids.Contents()[k] in before && sids.Contents()[k].sid == k
      requires NoRepeats(before)
      modifies sids, sids.table, sids.nodes
      ensures HashOk() && sids.nodes <= old(sids.nodes) && sids.table == old(sids.table)
    {
      hide HT.Table.Valid, HT.Table.Contents;
      ghost var m := sids.Contents();
      var gone := sids.Erase(client.sid);
      forall k | k in sids.Contents() ensures sids.Contents()[k] in clients && sids.Contents()[k].sid == k {
        assert k in m && m[k] in before && m[k] != client;
        InRemaining(before, i, m[k]);
      }
    }

    lemma InRemaining<T>(s: seq<T>, i: nat, x: T)
      requires i < |s| && x in s && x != s[i]
      ensures x in RemoveAt(s, i)
    {
      var k :| 0 <= k < |s| && s[k] == x;
      assert RemoveAt(s, i)[if k < i then k else k - 1] == x;
    }

    /** Close callbacks cannot point to a client that holds nothing, so they
        survive its removal. */
    lemma ConnsAfterRemove(before: seq<JabberClient>, st: State, i: nat)
      requires BI.Inv(st) && i < |before| == |st.sessions| && st.sessions[i].conn.None?
      requires forall k | 0 <= k < |before| :: before[k].uid == st.sessions[k].uid
      requires clients == RemoveAt(before, i)
      requires ConnsShowAmong(before, st.callbacks, st.out)
      ensures ConnsShow(st.callbacks, st.out)
    {
      hide SockOk;
      BI.RemoveKeeps(st, i);
      BI.DistinctAfterRemove(st.sessions, i);
      forall c | c in conns ensures ConnShows(c, clients, st.callbacks, st.out) {
        assert ConnShows(c, before, st.callbacks, st.out);
        if c.closeData != null {
          assert BI.Holds(BM.Remove(st, i).sessions, st.callbacks[c.id], c.id);
          InRemaining(before, i, c.closeData);
        }
      }
    }

    /** `clients` were `before` with the records the model knows. */
    ghost predicate Knew(before: seq<JabberClient>)
      reads this`model, this`conns, before
    {
      && NoRepeats(before) && |before| == |model.sessions|
      && (forall k | 0 <= k < |before| :: before[k].Shown() == model.sessions[k])
      && (forall k | 0 <= k < |before| && before[k].connection != null :: before[k].connection in conns)
    }

    /** The model follows once list, hash and counters have let go of client `i`. */
    ghost method DropFromModel(before: seq<JabberClient>, i: nat)
      requires Knew(before) && i < |before| && clients == RemoveAt(before, i) && before[i].connection == null
      requires ListOk() && HashOk() && ConnsShow(model.callbacks, model.out) && BI.Inv(model)
      requires CountersShow(model.count - 1, model.maxCount, model.timeout)
      modifies this`model
      ensures Valid() && model == BM.Remove(old(model), i)
    {
      hide SockOk, BI.Inv, ListOk, HashOk, ConnsShow;
      BI.RemoveKeeps(model, i);
      RemoveNoRepeats(before, i);
      model := BM.Remove(model, i);
      ghost var n := |clients|;
      assert forall k | 0 <= k < n :: clients[k] == before[if k < i then k else k + 1];
      assert forall k | 0 <= k < n :: model.sessions[k] == old(model.sessions)[if k < i then k else k + 1];
    }

    /** List, counter and hash let go of client `i`. */
    method Unlink(client: JabberClient, ghost i: nat)
      requires ListOk() && HashOk() && NoRepeats(clients) && i < |clients| && clients[i] == client
      modifies this`clients, this`clientCount
      modifies connections`nodes, connections.head, connections.nodes, sids, sids.table, sids.nodes
      ensures ListOk() && HashOk() && clients == RemoveAt(old(clients), i) && clientCount == old(clientCount) - 1
      ensures sids.nodes <= old(sids.nodes) && sids.table == old(sids.table)
      ensures forall n | n in connections.nodes :: n in old(connections.nodes)
    {
      hide HT.Table.Valid, HT.Table.Contents, CL.List.Valid;
      ghost var before := clients;
      Unlist(client, i);
      clientCount := clientCount - 1;
      Unhash(client, before, i);
    }

    /** `jb_close_client` once the client holds no request. */
    method Forget(client: JabberClient, ghost i: nat)
      requires Valid() && i < |clients| && clients[i] == client && client.connection == null
      modifies this`model, this`clients, this`clientCount
      modifies connections`nodes, connections.head, connections.nodes, sids, sids.table, sids.nodes
      ensures Valid() && model == BM.Remove(old(model), i)
      ensures clients == RemoveAt(old(clients), i)
      ensures sids.nodes <= old(sids.nodes) && sids.table == old(sids.table)
      ensures forall n | n in connections.nodes :: n in old(connections.nodes)
    {
      hide SockOk, BI.Inv, BM.Remove, ListOk, HashOk, ConnsShowAmong;
      ghost var before := clients;
      assert Knew(before);
      Unlink(client, i);
      ConnsAfterRemove(before, model, i);
      DropFromModel(before, i);
    }

    /** `jb_close_client` */
    method CloseClient(client: JabberClient, now: int, ghost i: nat)
      requires Valid() && i < |clients| && clients[i] == client
      modifies this`model, this`clients, this`clientCount
      modifies connections`nodes, connections.head, connections.nodes, sids, sids.table, sids.nodes
      modifies client`connection, client`timestamp, client`sock, client.connection
      ensures Valid() && model == BM.CloseClient(old(model), i, now)
      ensures clients == RemoveAt(old(clients), i) && Shrunk() && LeftClosed(old(clients))
      ensures client.sock == Close(old(client.sock)) == model.ended[client.uid]
    {
      hide Valid, LeftClosed;
      ListValid();
      ClientAt(i);
      if client.connection != null {
        DropRequest(client, true, now, i);
        ListValid();
        ClientAt(i);
      }
      ghost var before := clients;
      Forget(client, i);
      LeftAlone(before, i);
      client.sock := Close(client.sock);
      OneLeft(before, i);
    }

    lemma OneLeft(before: seq<JabberClient>, i: nat)
      requires i < |before| && !before[i].sock.open
      requires forall k | 0 <= k < |before| && k != i :: before[k] in clients
      ensures LeftClosed(before)
    {
    }

    /** Client `i` is the one that left. */
    lemma LeftAlone(before: seq<JabberClient>, i: nat)
      requires i < |before| && NoRepeats(before) && clients == RemoveAt(before, i)
      ensures before[i] !in clients
      ensures forall k | 0 <= k < |before| && k != i :: before[k] in clients
    {
      forall k | 0 <= k < |before| && k != i ensures before[k] in clients {
        InRemaining(before, i, before[k]);
      }
      assert forall k | 0 <= k < |clients| :: clients[k] == before[if k < i then k else k + 1];
    }

    /** The close callback of a connection points to a client. */
    method PointBack(conn: HttpConnection, client: JabberClient)
      requires conn in conns && client in clients && ConnsShow(model.callbacks, model.out)
      modifies this`model, conn`closeData
      ensures model == old(model).(callbacks := old(model).callbacks[conn.id := client.uid])
      ensures ConnsShow(model.callbacks, model.out)
    {
      hide AnswersTo;
      ghost var before := model;
      conn.closeData := client;
      model := model.(callbacks := model.callbacks[conn.id := client.uid]);
      forall c | c in conns ensures ConnShows(c, clients, model.callbacks, model.out) {
        assert old(ConnShows(c, clients, before.callbacks, before.out));
      }
    }

    /** A client record takes a connection, and a new timestamp. */
    method TakeUp(client: JabberClient, conn: HttpConnection, now: int, ghost sessions: seq<Session>, ghost i: nat)
      requires ClientsShow(sessions, i) && HeldOk() && i < |clients| && clients[i] == client && conn in conns
      modifies client`connection, client`timestamp
      ensures client.Shown() == old(client.Shown()).(conn := Some(conn.id), timestamp := now)
      ensures ClientsShow(sessions[i := client.Shown()], |clients|) && HeldOk()
      ensures client.connection == conn
    {
      client.connection := conn;
      client.timestamp := now;
    }

    /** The middle of `jc_set_http`: hold the new connection. */
    method Hold(client: JabberClient, conn: HttpConnection, now: int, ghost i: nat)
      requires Valid() && i < |clients| && clients[i] == client && conn in conns && client.connection == null
      modifies this`model, client`connection, client`timestamp, conn`closeData
      ensures Valid() && model == BM.Hold(old(model), i, conn.id, now)
      ensures client.connection == conn
    {
      hide SockOk, BI.Inv, ListOk, HashOk, ConnsShowAmong;
      Steady(i);
      BI.HoldKeeps(model, i, conn.id, now);
      hide ClientsShow, HeldOk;
      PointBack(conn, client);
      TakeUp(client, conn, now, model.sessions, i);
      PutRecord(i);
    }

    /** `jc_set_http` */
    method SetHttp(client: JabberClient, conn: HttpConnection, now: int, ghost i: nat)
      requires Valid() && i < |clients| && clients[i] == client && conn in conns
      modifies this`model, client`connection, client`timestamp, client`outputQueue, client.connection, conn
      ensures Valid() && model == BM.SetHttp(old(model), i, conn.id, now)
    {
      hide SockOk, BI.Inv, ListOk, HashOk, ConnsShowAmong;
      Steady(i);
      if client.connection != null {
        DropRequest(client, false, now, i);
      }
      Hold(client, conn, now, i);
      Steady(i);
      FlushMessages(client, now, i);
    }

    /** The connection is gone after `hc_delete`, and its callback with it. */
    method LoseRequest(conn: HttpConnection, ghost owner: Uid)
      requires conn in conns && ConnsShow(model.callbacks, model.out)
      modifies this`model, conn`closeData
      ensures model == old(model).(callbacks := old(model).callbacks - {conn.id},
                                   out := old(model).out + [Lost(conn.id, Some(owner))])
      ensures ConnsShow(model.callbacks, model.out)
    {
      hide AnswersTo;
      ghost var before := model;
      conn.closeData := null;
      model := model.(callbacks := model.callbacks - {conn.id}, out := model.out + [Lost(conn.id, Some(owner))]);
      forall c | c in conns ensures ConnShows(c, clients, model.callbacks, model.out) {
        assert old(ConnShows(c, clients, before.callbacks, before.out));
        AnswersSnoc(before.out, Lost(conn.id, Some(owner)), c.id);
      }
    }

    lemma ClearForm(st: State, conn: Conn, now: int, i: nat)
      requires BI.CallbacksSound(st) && BI.Distinct(st.sessions) && i < |st.sessions|
      requires conn in st.callbacks && st.callbacks[conn] == st.sessions[i].uid
      ensures BM.ClearHttp(st, conn, now) ==
                BM.Put(st.(callbacks := st.callbacks - {conn}, out := st.out + [Lost(conn, Some(st.sessions[i].uid))]),
                       i, st.sessions[i].(conn := None, timestamp := now))
    {
      BI.IndexIs(st.sessions, i);
    }

    lemma ClearInv(st: State, conn: Conn, now: int)
      requires BI.Inv(st)
      ensures BI.Inv(BM.ClearHttp(st, conn, now))
    {
      BI.ClearKeeps(st, conn, now);
    }

    lemma CallbackIs(conn: HttpConnection, client: JabberClient)
      requires ConnShows(conn, clients, model.callbacks, model.out) && conn.closeData == client
      ensures conn.id in model.callbacks && model.callbacks[conn.id] == client.uid
    {
    }

    /** `jc_clear_http` */
    method ClearHttp(client: JabberClient, conn: HttpConnection, now: int, ghost i: nat)
      requires Valid() && i < |clients| && clients[i] == client && conn in conns && conn.closeData == client
      modifies this`model, conn`closeData, client`connection, client`timestamp
      ensures Valid() && model == BM.ClearHttp(old(model), conn.id, now)
    {
      hide SockOk, BI.Inv, ListOk, HashOk, ConnsShowAmong, BM.ClearHttp, BI.CallbacksSound, BI.Distinct;
      Steady(i);
      CallbackAt(conn);
      CallbackIs(conn, client);
      ClearForm(model, conn.id, now, i);
      ClearInv(model, conn.id, now);
      LoseRequest(conn, client.uid);
      hide ClientsShow, HeldOk;
      LetGo(client, now, model.sessions, i);
      PutRecord(i);
    }

    /** `hc_delete`: the close callback, if there is one, and the socket. */
    method ConnectionClosed(conn: HttpConnection, now: int)
      requires Valid() && conn in conns
      modifies this`model, conn`closeData, conn`open, clients`connection, clients`timestamp
      ensures Valid() && model == BM.ClearHttp(old(model), conn.id, now) && !conn.open
    {
      hide Valid, BM.ClearHttp;
      CallBack(conn, now);
      conn.open := false;
    }

    /** The close callback `hc_delete` makes for a connection that closes. */
    method CallBack(conn: HttpConnection, now: int)
      requires Valid() && conn in conns
      modifies this`model, conn`closeData, clients`connection, clients`timestamp
      ensures Valid() && model == BM.ClearHttp(old(model), conn.id, now)
    {
      CallbackAt(conn);
      if conn.closeData != null {
        ghost var i := IndexOf(conn.closeData);
        ClearHttp(conn.closeData, conn, now, i);
      }
    }

    lemma CallbackAt(conn: HttpConnection)
      requires Valid() && conn in conns
      ensures ConnShows(conn, clients, model.callbacks, model.out)
      ensures BI.CallbacksSound(model) && BI.Distinct(model.sessions)
    {
      hide SockOk, ListOk, HashOk;
    }

    /** The position of a live client, which is also that of its session. */
    ghost function IndexOf(client: JabberClient): (i: nat)
      requires Valid() && client in clients
      reads this`model, this`clients, this`conns, this`clientCount, this`maxClientCount
      reads connections, connections.head, connections.nodes, sids, sids.table, sids.nodes
      reads clients, conns`closeData, conns`answers
      ensures i < |clients| && clients[i] == client && BM.IndexOfUid(model.sessions, client.uid) == i
    {
      var i := Position(clients, client);
      BI.IndexIs(model.sessions, i);
      assert clients[i].Shown() == model.sessions[i];
      i
    }

    /** The stanza loop of `jb_handle_http_post` and the flush after it. */
    static method SendLoop(client: JabberClient, stanzas: seq<Stanza>, sends: seq<SendOutcome>)
      modifies client`sock
      ensures client.sock == Send(SendAll(old(client.sock), stanzas), None, false, sends)
    {
      hide Send;
      var k := 0;
      while k < |stanzas|
        invariant k <= |stanzas|
        invariant SendAll(client.sock, stanzas[k..]) == SendAll(old(client.sock), stanzas)
      {
        client.sock := Send(client.sock, Some(stanzas[k]), true, []);
        assert stanzas[k..][1..] == stanzas[k + 1..];
        k := k + 1;
      }
      client.sock := Send(client.sock, None, false, sends);
    }

    method SendStanzas(client: JabberClient, stanzas: seq<Stanza>, sends: seq<SendOutcome>, ghost i: nat)
      requires Valid() && i < |clients| && clients[i] == client
      modifies this`model, client`sock
      ensures Valid() && model == BM.SendStanzas(old(model), i, stanzas, sends)
    {
      hide SockOk, BI.Inv, ListOk, HashOk, ConnsShowAmong, Send, SendAll;
      Steady(i);
      SendAllKeepsOk(client.sock, stanzas);
      SendKeepsOk(SendAll(client.sock, stanzas), None, false, sends);
      SendLoop(client, stanzas, sends);
      Sync(i);
    }

    /** `jb_handle_http_post` for a known sid. */
    method PollSession(client: JabberClient, conn: HttpConnection, m: Message, sends: seq<SendOutcome>, now: int,
                       ghost i: nat)
      requires Valid() && i < |clients| && clients[i] == client && conn in conns
      modifies this`model, this`clients, this`clientCount, conns
      modifies connections`nodes, connections.head, connections.nodes, sids, sids.table, sids.nodes, client
      ensures Valid() && model == BM.PollSession(old(model), i, conn.id, m, sends, now)
      ensures Shrunk() && LeftClosed(old(clients))
    {
      hide Valid, BM.SetHttp, BM.SendStanzas, BM.CloseClient;
      HeldAreConns(i);
      SetHttp(client, conn, now, i);
      SendStanzas(client, m.stanzas, sends, i);
      if m.terminate {
        HeldAreConns(i);
        CloseClient(client, now, i);
      }
    }

    lemma HeldAreConns(i: nat)
      requires Valid() && i < |clients|
      ensures clients[i].connection == null || clients[i].connection in conns
    {
      hide SockOk, BI.Inv, ListOk, HashOk, ConnsShowAmong;
    }

    /** `jc_handle_stanza` */
    static method HandleStanza(client: JabberClient, item: StanzaEvent)
      modifies client`outputQueue, client`alive
      ensures client.Shown() == BM.HandleStanza(old(client.Shown()), item)
    {
      match item
      case Normal(stanza) => client.outputQueue := client.outputQueue + [stanza];
      case ErrorOrStop => client.alive := false;
      case Ignored =>
    }

    /** The read loop of `jc_read_jabber`. */
    static method ReadLoop(client: JabberClient, items: seq<StanzaEvent>, end: ReadEnd)
      modifies client`outputQueue, client`alive, client`sock
      ensures client.Shown() == AfterRead(old(client.Shown()), items, end)
    {
      var k := 0;
      while k < |items|
        invariant k <= |items|
        invariant HandleStanzas(client.Shown(), items[k..]) == HandleStanzas(old(client.Shown()), items)
      {
        HandleStanza(client, items[k]);
        assert items[k..][1..] == items[k + 1..];
        k := k + 1;
      }
      if end.SocketEnded? {
        client.sock := Close(client.sock);
      }
    }

    /** Reading moves no names and no connection, so the client stays in step. */
    lemma ReadStaysInStep(i: nat, before: Session, items: seq<StanzaEvent>, end: ReadEnd)
      requires i < |clients| == |model.sessions| && before == model.sessions[i] && SockOk(before.sock)
      requires clients[i].Shown() == AfterRead(before, items, end)
      ensures InStep(i)
    {
      BI.StanzasKeepNames(before, items);
      CloseKeepsOk(before.sock);
    }

    /** `jc_read_jabber` */
    method ReadJabber(client: JabberClient, items: seq<StanzaEvent>, end: ReadEnd, now: int, ghost i: nat)
      requires Valid() && i < |clients| && clients[i] == client
      modifies this`model, this`clients, this`clientCount, conns
      modifies connections`nodes, connections.head, connections.nodes, sids, sids.table, sids.nodes, client
      ensures Valid() && model == BM.ReadJabber(old(model), i, items, end, now)
      ensures Shrunk() && LeftClosed(old(clients))
    {
      hide SockOk, BI.Inv, ListOk, HashOk, ConnsShowAmong, AfterRead, BM.FlushMessages, BM.CloseClient;
      Steady(i);
      ReadLoop(client, items, end);
      ReadStaysInStep(i, model.sessions[i], items, end);
      FlushMessages(client, now, i);
      Steady(i);
      HeldAreConns(i);
      if client.sock.status != Connected || end.ParseFailed? || !client.alive {
        CloseClient(client, now, i);
      }
    }

    /** The writability callback of the XMPP socket and `jc_answer_creation`. */
    method XmppReady(client: JabberClient, error: int, sends: seq<SendOutcome>, now: int, ghost i: nat)
      requires Valid() && i < |clients| && clients[i] == client
      modifies this`model, this`clients, this`clientCount, conns
      modifies connections`nodes, connections.head, connections.nodes, sids, sids.table, sids.nodes, client
      ensures Valid() && model == BM.XmppReady(old(model), i, error, sends, now)
      ensures Shrunk() && LeftClosed(old(clients))
    {
      hide SockOk, BI.Inv, ListOk, HashOk, ConnsShowAmong, Writable, BM.CloseClient;
      Steady(i);
      WritableKeepsOk(client.sock, error, sends);
      var connecting := client.sock.status == Connecting;
      client.sock := Writable(client.sock, error, sends);
      Sync(i);
      HeldAreConns(i);
      if connecting && error != 0 {
        CloseClient(client, now, i);
      }
    }

    /** Put a new record at the end of the list, with its iterator. */
    method Enlist(client: JabberClient)
      requires ListOk() && client !in clients
      modifies this`clients, connections`nodes, connections.head, connections.nodes, client`it
      ensures ListOk() && clients == old(clients) + [client]
      ensures exists n :: fresh(n) && connections.nodes == old(connections.nodes) + [n]
    {
      connections.Ends();
      var node := connections.PushBack(client);
      client.it := node;
      clients := clients + [client];
    }

    /** Put the sid of the newest client into the hash. */
    method Enhash(client: JabberClient, ghost before: seq<JabberClient>)
      requires sids.Valid() && sids.unique && sids.elementCount < Primes.LIMIT && clients == before + [client]
      requires forall k | 0 <= k < |before| ::
                 before[k].sid in sids.Contents() && sids.Contents()[before[k].sid] == before[k]
      requires forall k | k in sids.Contents() :: sids.Contents()[k] in before && sids.Contents()[k].sid == k
      requires forall k | 0 <= k < |before| :: before[k].sid != client.sid
      modifies sids, sids.table, sids.nodes
      ensures HashOk() && fresh(sids.nodes - old(sids.nodes)) && (sids.table == old(sids.table) || fresh(sids.table))
    {
      hide HT.Table.Valid, HT.Table.Contents, Primes.Inserted;
      ghost var m := sids.Contents();
      assert client.sid !in m;
      SidUnknown(client.sid);
      ghost var node := sids.Insert(client.sid, client);
      assert sids.Contents() == m[client.sid := client];
      assert forall k | 0 <= k < |before| :: clients[k] == before[k];
      assert clients[|before|] == client;
    }

    lemma SidUnknown(sid: nat)
      requires sids.Indexed() && sid !in sids.Contents()
      ensures sid !in sids.byKey
    {
    }

    /** List and hash take in a new record. */
    method Link(client: JabberClient)
      requires ListOk() && HashOk() && client !in clients && sids.elementCount < Primes.LIMIT
      requires forall k | 0 <= k < |clients| :: clients[k].sid != client.sid
      modifies this`clients, connections`nodes, connections.head, connections.nodes, client`it
      modifies sids, sids.table, sids.nodes
      ensures ListOk() && HashOk() && clients == old(clients) + [client]
      ensures fresh(sids.nodes - old(sids.nodes)) && (sids.table == old(sids.table) || fresh(sids.table))
      ensures exists n :: fresh(n) && connections.nodes == old(connections.nodes) + [n]
    {
      hide HT.Table.Valid, HT.Table.Contents, CL.List.Valid;
      ghost var before := clients;
      Enlist(client);
      Enhash(client, before);
    }

    /** The model follows once list, hash and counters have taken in a client. */
    ghost method AddToModel(before: seq<JabberClient>, client: JabberClient, sid: nat, wait: int, host: Bytes, now: int)
      requires Knew(before) && clients == before + [client] && client !in before
      requires client.Shown() == Session(model.nextUid, sid, None, [], true, now, wait, NewSock(host))
      requires ListOk() && HashOk() && ConnsShowAmong(before, model.callbacks, model.out) && BI.Inv(model)
      requires BM.IndexOfSid(model.sessions, sid) == |model.sessions|
      requires var st := BM.AddSession(model, sid, wait, host, now); CountersShow(st.count, st.maxCount, st.timeout)
      modifies this`model
      ensures Valid() && model == BM.AddSession(old(model), sid, wait, host, now)
    {
      hide SockOk, BI.Inv, ListOk, HashOk, NewSock, BM.IndexOfSid;
      BI.AddKeeps(model, sid, wait, host, now);
      model := BM.AddSession(model, sid, wait, host, now);
      assert forall k | 0 <= k < |before| :: clients[k] == before[k];
      forall c | c in conns ensures ConnShows(c, clients, model.callbacks, model.out) {
        assert ConnShows(c, before, model.callbacks, model.out);
      }
    }

    /** List, hash and counters take in a new record. */
    method Register(client: JabberClient)
      requires ListOk() && HashOk() && client !in clients && sids.elementCount < Primes.LIMIT
      requires forall k | 0 <= k < |clients| :: clients[k].sid != client.sid
      modifies this`clients, this`clientCount, this`maxClientCount
      modifies connections`nodes, connections.head, connections.nodes, client`it, sids, sids.table, sids.nodes
      ensures ListOk() && HashOk() && clients == old(clients) + [client]
      ensures clientCount == old(clientCount) + 1
      ensures maxClientCount == if clientCount > old(maxClientCount) then clientCount else old(maxClientCount)
      ensures NodesGrown()
    {
      hide ListOk, HashOk;
      Link(client);
      clientCount := clientCount + 1;
      if clientCount > maxClientCount {
        maxClientCount := clientCount;
      }
    }

    /** The broker takes in a new record. */
    method Admit(client: JabberClient, sid: nat, wait: int, host: Bytes, now: int)
      requires Valid() && client !in clients && sids.elementCount < Primes.LIMIT
      requires BM.IndexOfSid(model.sessions, sid) == |model.sessions|
      requires client.Shown() == Session(model.nextUid, sid, None, [], true, now, wait, NewSock(host))
      modifies this`model, this`clients, this`clientCount, this`maxClientCount
      modifies connections`nodes, connections.head, connections.nodes, client`it, sids, sids.table, sids.nodes
      ensures Valid() && model == BM.AddSession(old(model), sid, wait, host, now)
      ensures NodesGrown() && clients == old(clients) + [client]
    {
      hide SockOk, BI.Inv, ListOk, HashOk, ConnsShowAmong, NewSock, BM.IndexOfSid, NodesGrown;
      ghost var before := clients;
      Known();
      hide Knew;
      SidsDiffer(sid);
      Register(client);
      AddToModel(before, client, sid, wait, host, now);
    }

    /** `jb_connect_client` between the socket and the answer. */
    method AddSession(sid: nat, wait: int, host: Bytes, now: int)
      requires Valid() && sids.elementCount < Primes.LIMIT
      requires BM.IndexOfSid(model.sessions, sid) == |model.sessions|
      modifies this`model, this`clients, this`clientCount, this`maxClientCount, this`everyone
      modifies connections`nodes, connections.head, connections.nodes, sids, sids.table, sids.nodes
      ensures Valid() && model == BM.AddSession(old(model), sid, wait, host, now)
      ensures Grown() && LeftClosed(old(clients))
    {
      hide Valid, NewSock, BM.IndexOfSid, BM.AddSession, LeftClosed;
      ghost var before := clients;
      var client := new JabberClient(sid, wait, model.nextUid, now, connections.head, NewSock(host));
      Admit(client, sid, wait, host, now);
      everyone := everyone + {client};
      NobodyLeft(before, client);
    }

    lemma NobodyLeft(before: seq<JabberClient>, client: JabberClient)
      requires clients == before + [client]
      ensures LeftClosed(before) && forall c | c in clients :: c in before || c == client
    {
    }

    lemma Known()
      requires Valid()
      ensures Knew(clients) && ListOk() && HashOk() && ConnsShowAmong(clients, model.callbacks, model.out)
      ensures BI.Inv(model) && CountersShow(model.count, model.maxCount, model.timeout)
    {
      hide SockOk, BI.Inv, ListOk, HashOk, ConnsShowAmong;
    }

    lemma SidsDiffer(sid: nat)
      requires Valid() && BM.IndexOfSid(model.sessions, sid) == |model.sessions|
      ensures forall k | 0 <= k < |clients| :: clients[k].sid != sid
    {
      hide SockOk, BI.Inv, ListOk, HashOk, ConnsShowAmong;
      forall k | 0 <= k < |clients| ensures clients[k].sid != sid {
        assert clients[k].Shown() == model.sessions[k];
      }
    }

    /** An answer that belongs to no session. */
    method Reply(conn: HttpConnection, body: Body)
      requires Valid() && conn in conns
      modifies this`model, conn
      ensures Valid() && model == AnswerOn(old(model), conn.id, body, None)
    {
      hide SockOk, BI.Inv, ListOk, HashOk, ConnsShowAmong;
      BI.AnswerKeeps(model, conn.id, body);
      AnswerRequest(conn, body, None);
    }

    /** `jb_connect_client` */
    method ConnectClient(conn: HttpConnection, m: Message, env: Env, now: int)
      requires Valid() && conn in conns && sids.elementCount < Primes.LIMIT
      requires BM.IndexOfSid(model.sessions, env.newSid) == |model.sessions|
      modifies this`model, this`clients, this`clientCount, this`maxClientCount, this`everyone, conn
      modifies connections`nodes, connections.head, connections.nodes, sids, sids.table, sids.nodes
      ensures Valid() && model == BM.ConnectClient(old(model), conn.id, m, env, now)
      ensures Grown() && LeftClosed(old(clients))
    {
      hide Valid, BM.AddSession, BM.IndexOfSid;
      if m.wait.None? {
        Reply(conn, Error(BadFormat));
      } else if m.to.None? {
        Reply(conn, Error(BadFormat));
      } else if !m.hasRid {
        Reply(conn, Error(BadFormat));
      } else if !env.parserOk {
        Reply(conn, Error(ConnectionFailed));
      } else if !env.connectOk {
        Reply(conn, Error(ConnectionFailed));
      } else {
        AddSession(env.newSid, m.wait.value * 1000, m.to.value, now);
        Reply(conn, Created(env.newSid));
      }
    }

    /** What the sid hash finds is the client of that session, if there is one. */
    method LookUp(sid: nat) returns (client: JabberClient?, ghost i: nat)
      requires Valid()
      ensures i == BM.IndexOfSid(model.sessions, sid)
      ensures client == if i < |clients| then clients[i] else null
      ensures |clients| == |model.sessions|
    {
      hide SockOk, BI.Inv, ListOk, ConnsShowAmong, HT.Table.Valid;
      var found := sids.Find(sid);
      i := BM.IndexOfSid(model.sessions, sid);
      Shows(i);
      if found.Some? {
        client := found.value;
        Shows(Position(clients, client));
        Distinct();
      } else {
        client := null;
      }
    }

    lemma Shows(i: nat)
      requires Valid()
      ensures |clients| == |model.sessions|
      ensures i < |clients| ==> clients[i].sid == model.sessions[i].sid
    {
      hide SockOk, BI.Inv, ListOk, HashOk, ConnsShowAmong;
      assert i < |clients| ==> clients[i].Shown() == model.sessions[i];
    }

    lemma Distinct()
      requires Valid()
      ensures BI.Distinct(model.sessions)
    {
      hide SockOk, ListOk, HashOk, ConnsShowAmong;
    }

    /** `jb_handle_http_post` */
    method HandlePost(conn: HttpConnection, message: Option<Message>, env: Env, now: int)
      requires Valid() && conn in conns && sids.elementCount < Primes.LIMIT
      requires BM.IndexOfSid(model.sessions, env.newSid) == |model.sessions|
      modifies this, conns, clients, connections`nodes, connections.head, connections.nodes
      modifies sids, sids.table, sids.nodes
      ensures Valid() && model == BM.HandlePost(old(model), conn.id, message, env, now)
      ensures Grown() && LeftClosed(old(clients))
    {
      hide Valid, BM.PollSession, BM.ConnectClient;
      if message.None? {
        Reply(conn, Error(BadFormat));
        return;
      }
      var m := message.value;
      match m.sid
      case NoSid => ConnectClient(conn, m, env, now);
      case BadSid => Reply(conn, Error(BadFormat));
      case Sid(sid) =>
        if !m.hasRid {
          Reply(conn, Error(BadFormat));
          return;
        }
        var client, i := LookUp(sid);
        if client == null {
          Reply(conn, Error(SidNotFound));
        } else {
          PollSession(client, conn, m, env.sends, now, i);
        }
    }

    /** `jb_handle_request` */
    method HandleRequest(conn: HttpConnection, request: Request, env: Env, now: int)
      requires Valid() && conn in conns && sids.elementCount < Primes.LIMIT
      requires BM.IndexOfSid(model.sessions, env.newSid) == |model.sessions|
      modifies this, conns, clients, connections`nodes, connections.head, connections.nodes
      modifies sids, sids.table, sids.nodes
      ensures Valid() && model == BM.HandleRequest(old(model), conn.id, request, env, now)
      ensures Grown() && LeftClosed(old(clients))
    {
      hide Valid, BM.HandlePost;
      match request
      case Get =>
        Counters();
        Reply(conn, StatusPage(clientCount, maxClientCount));
      case Post(message) => HandlePost(conn, message, env, now);
      case OtherMethod => Reply(conn, Error(BadFormat));
    }

    lemma Counters()
      requires Valid()
      ensures clientCount == model.count && maxClientCount == model.maxCount && sessionTimeout == model.timeout
    {
      hide SockOk, BI.Inv, ListOk, HashOk, ConnsShowAmong;
    }

    /** The client at position `k` of the list. */
    lemma ClientAt(k: nat)
      requires Valid() && k < |clients|
      ensures |clients| == |model.sessions| == |connections.nodes|
      ensures connections.nodes[k].value == clients[k] && clients[k].it == connections.nodes[k]
      ensures clients[k].Shown() == model.sessions[k]
    {
      hide SockOk, BI.Inv, HashOk, ConnsShowAmong, CL.List.Valid;
      assert clients[k].Shown() == model.sessions[k];
    }

    lemma ListValid()
      requires Valid()
      ensures connections.Valid() && connections.head !in connections.nodes
      ensures |clients| == |model.sessions| == |connections.nodes|
      ensures sessionTimeout == model.timeout && NoRepeats(clients)
    {
      hide SockOk, BI.Inv, HashOk, ConnsShowAmong, CL.List.Valid;
      connections.HeadApart();
    }

    /** `jb_closest_timeout` */
    method ClosestTimeout(now: int) returns (closest: int)
      requires Valid()
      ensures closest == BM.ClosestTimeout(model, now)
    {
      hide Valid, CL.List.Valid;
      ListValid();
      closest := sessionTimeout;
      var it := connections.Begin();
      ghost var k := 0;
      while it != connections.head
        invariant k <= |clients|
        invariant it == if k < |connections.nodes| then connections.nodes[k] else connections.head
        invariant BM.ClosestFrom(model, k, closest, now) == BM.ClosestTimeout(model, now)
        decreases |clients| - k
      {
        ClientAt(k);
        var client := it.value;
        var left := if client.connection != null then client.timestamp + client.wait - now
                    else client.timestamp + sessionTimeout - now;
        if left < closest {
          closest := left;
        }
        it := connections.Next(it, k);
        k := k + 1;
      }
    }

    /** The body of the scan: answer an overdue request, or mark an idle session. */
    method Visit(client: JabberClient, toClose: seq<JabberClient>, now: int, ghost k: nat)
      returns (marked: seq<JabberClient>)
      requires Valid() && k < |clients| && clients[k] == client
      modifies this`model, client`connection, client`timestamp, conns
      ensures Valid() && |old(model).sessions| == |clients|
      ensures var s := old(model).sessions[k];
              && model == (if RequestDue(s, now) then BM.DropRequest(old(model), k, false, now) else old(model))
              && marked == toClose + (if SessionDue(s, sessionTimeout, now) then [client] else [])
              && client.uid == s.uid && model.timeout == old(model).timeout
              && |model.sessions| == |clients| && model.sessions[k + 1..] == old(model).sessions[k + 1..]
    {
      hide Valid;
      ClientAt(k);
      HeldAreConns(k);
      marked := toClose;
      var idle := now - client.timestamp;
      if client.connection != null && idle >= client.wait {
        DropRequest(client, false, now, k);
      } else if client.connection == null && idle >= sessionTimeout {
        marked := toClose + [client];
      }
    }

    lemma NewToClose(toClose: seq<JabberClient>, k: nat)
      requires NoRepeats(clients) && NoRepeats(toClose) && k < |clients|
      requires forall c | c in toClose :: c in clients[..k]
      ensures NoRepeats(toClose + [clients[k]])
      ensures forall c | c in toClose :: c in clients[..k + 1]
      ensures forall c | c in toClose + [clients[k]] :: c in clients[..k + 1]
    {
      assert clients[..k + 1] == clients[..k] + [clients[k]];
      assert clients[k] !in clients[..k];
      NoRepeatsConcat(toClose, [clients[k]]);
    }

    /** One turn of the scan of `jb_check_timeout`. */
    method VisitNode(it: CL.Node<JabberClient?>, toClose: seq<JabberClient>, now: int, ghost st: State, ghost k: nat)
      returns (marked: seq<JabberClient>)
      requires Valid() && k < |clients| == |model.sessions| == |connections.nodes| && it == connections.nodes[k]
      requires Scanned(st, model, UidsOf(toClose), k, now)
      requires NoRepeats(toClose) && forall c | c in toClose :: c in clients[..k]
      modifies this`model, clients`connection, clients`timestamp, conns
      ensures Valid() && |model.sessions| == |clients|
      ensures Scanned(st, model, UidsOf(marked), k + 1, now)
      ensures NoRepeats(marked) && forall c | c in marked :: c in clients[..k + 1]
    {
      hide Valid, CL.List.Valid, Scanned, BM.DropDue, BM.DropRequest, BM.ToClose, RequestDue, SessionDue;
      ghost var model0, uids0 := model, UidsOf(toClose);
      ListValid();
      ClientAt(k);
      NewToClose(toClose, k);
      marked := Visit(it.value, toClose, now, k);
      assert UidsOf(marked) == uids0 +
        if SessionDue(model0.sessions[k], model0.timeout, now) then [model0.sessions[k].uid] else [];
      ScanStep(st, model0, uids0, k, now, model, UidsOf(marked));
    }

    /** The scan of `jb_check_timeout`. */
    method Scan(now: int) returns (toClose: seq<JabberClient>)
      requires Valid()
      modifies this`model, clients`connection, clients`timestamp, conns
      ensures Valid() && model == BM.DropDue(old(model), 0, now)
      ensures UidsOf(toClose) == BM.ToClose(old(model).sessions, old(model).timeout, now)
      ensures NoRepeats(toClose) && forall c | c in toClose :: c in clients
    {
      hide Valid, CL.List.Valid, Scanned, BM.DropDue, BM.ToClose;
      ListValid();
      toClose := [];
      ghost var st := model;
      ScanStart(st, now);
      var it := connections.Begin();
      ghost var k := 0;
      while it != connections.head
        invariant Valid() && k <= |clients| == |model.sessions| == |connections.nodes|
        invariant it == if k < |connections.nodes| then connections.nodes[k] else connections.head
        invariant Scanned(st, model, UidsOf(toClose), k, now)
        invariant NoRepeats(toClose) && forall c | c in toClose :: c in clients[..k]
        decreases |clients| - k
      {
        toClose := VisitNode(it, toClose, now, st, k);
        ListValid();
        it := connections.Next(it, k);
        k := k + 1;
      }
      ScanEnd(st, model, UidsOf(toClose), now);
    }

    /** The scan has passed `k` sessions and marked `uids` among them. */
    ghost predicate Scanned(st: State, current: State, uids: seq<Uid>, k: nat, now: int) {
      && k <= |current.sessions| == |st.sessions| && current.timeout == st.timeout
      && BM.DropDue(current, k, now) == BM.DropDue(st, 0, now)
      && current.sessions[k..] == st.sessions[k..]
      && uids + BM.ToClose(st.sessions[k..], st.timeout, now) == BM.ToClose(st.sessions, st.timeout, now)
    }

    lemma ScanStart(st: State, now: int)
      ensures Scanned(st, st, [], 0, now)
    {
      assert st.sessions[0..] == st.sessions;
    }

    lemma ScanStep(st: State, current: State, uids: seq<Uid>, k: nat, now: int, current': State, uids': seq<Uid>)
      requires Scanned(st, current, uids, k, now) && k < |current.sessions|
      requires current' ==
               if RequestDue(current.sessions[k], now) then BM.DropRequest(current, k, false, now) else current
      requires uids' ==
               uids + if SessionDue(current.sessions[k], current.timeout, now) then [current.sessions[k].uid] else []
      ensures Scanned(st, current', uids', k + 1, now)
    {
      assert current.sessions[k] == st.sessions[k..][0];
      assert st.sessions[k..][1..] == st.sessions[k + 1..];
      assert current'.sessions[k + 1..] == current.sessions[k..][1..];
    }

    lemma ScanEnd(st: State, current: State, uids: seq<Uid>, now: int)
      requires Scanned(st, current, uids, |current.sessions|, now)
      ensures current == BM.DropDue(st, 0, now) && uids == BM.ToClose(st.sessions, st.timeout, now)
    {
      assert uids + [] == uids;
    }

    /** The uids of some client records. */
    static ghost function UidsOf(some: seq<JabberClient>): (uids: seq<Uid>)
      ensures |uids| == |some| && forall i | 0 <= i < |some| :: uids[i] == some[i].uid
    {
      seq(|some|, i requires 0 <= i < |some| => some[i].uid)
    }

    /** `jb_close_client` for a client whose position nobody needs. */
    method CloseOne(client: JabberClient, now: int)
      requires Valid() && client in clients
      modifies this, clients, conns, connections`nodes, connections.head, connections.nodes
      modifies sids, sids.table, sids.nodes
      ensures Valid() && Shrunk() && LeftClosed(old(clients))
      ensures var i := BM.IndexOfUid(old(model).sessions, client.uid);
              i < |old(model).sessions| && model == BM.CloseClient(old(model), i, now)
      ensures forall c | c in old(clients) && c != client :: c in clients
    {
      hide Valid, BM.CloseClient;
      ghost var before, i := clients, IndexOf(client);
      ListValid();
      ClientAt(i);
      HeldAreConns(i);
      CloseClient(client, now, i);
      forall c | c in before && c != client ensures c in clients {
        InRemaining(before, i, c);
      }
    }

    /** The closing loop of `jb_check_timeout`. */
    method CloseExpired(toClose: seq<JabberClient>, now: int)
      requires Valid() && NoRepeats(toClose) && forall c | c in toClose :: c in clients
      modifies this, clients, conns, connections`nodes, connections.head, connections.nodes
      modifies sids, sids.table, sids.nodes
      ensures Valid() && model == BM.CloseAll(old(model), UidsOf(toClose), now)
      ensures Shrunk() && LeftClosed(old(clients))
    {
      hide Valid, BM.CloseClient, BM.IndexOfUid, Grown;
      var j := 0;
      while j < |toClose|
        invariant Valid() && j <= |toClose|
        invariant Shrunk() && LeftClosed(old(clients))
        invariant forall i | j <= i < |toClose| :: toClose[i] in clients
        invariant BM.CloseAll(model, UidsOf(toClose[j..]), now) == BM.CloseAll(old(model), UidsOf(toClose), now)
      {
        CloseOne(toClose[j], now);
        assert UidsOf(toClose[j..])[1..] == UidsOf(toClose[j + 1..]);
        j := j + 1;
      }
    }

    /** `jb_check_timeout` */
    method CheckTimeout(now: int)
      requires Valid()
      modifies this, clients, conns, connections`nodes, connections.head, connections.nodes
      modifies sids, sids.table, sids.nodes
      ensures Valid() && model == BM.CheckTimeout(old(model), now) && Shrunk() && LeftClosed(old(clients))
    {
      hide Valid, BM.DropDue, BM.CloseAll;
      var toClose := Scan(now);
      CloseExpired(toClose, now);
    }

    /** The body of the loop of `jb_delete`. */
    method CloseFirst(now: int)
      requires Valid() && Buried() && clients != []
      modifies this, clients, conns, connections`nodes, connections.head, connections.nodes
      modifies sids, sids.table, sids.nodes
      ensures Valid() && Buried() && Shrunk() && |clients| == |old(clients)| - 1
    {
      hide Valid, BM.CloseClient;
      ListValid();
      ClientAt(0);
      HeldAreConns(0);
      var client := connections.Front();
      CloseClient(client, now, 0);
    }

    /** `jb_delete`: every session is closed, front first. */
    method CloseEverything(now: int)
      requires Valid() && Buried()
      modifies this, clients, conns, connections`nodes, connections.head, connections.nodes
      modifies sids, sids.table, sids.nodes
      ensures Valid() && clients == [] && model.sessions == [] && model.callbacks == map[]
      ensures forall c | c in old(everyone) :: !c.sock.open
    {
      hide Valid, Buried, BM.CloseClient;
      ListValid();
      var empty := connections.IsEmpty();
      while !empty
        invariant Valid() && Buried() && Shrunk()
        invariant empty <==> clients == []
        decreases |clients|
      {
        CloseFirst(now);
        ListValid();
        empty := connections.IsEmpty();
      }
      NothingHeld();
    }

    lemma NothingHeld()
      requires Valid() && Buried() && clients == []
      ensures model.sessions == [] && model.callbacks == map[]
      ensures forall c | c in everyone :: !c.sock.open
    {
      hide SockOk, ListOk, HashOk, ConnsShowAmong;
      assert forall c | c in model.callbacks :: BI.Holds(model.sessions, model.callbacks[c], c);
    }

    /** What the environment must bring along: a callback was registered for an
        object of the broker, and a request finds room in the hash and ends up
        with a sid that is not in use. */
    ghost predicate Supplied(cb: Callback)
      reads this`everyone, this`conns, this`model, sids`elementCount
    {
      match cb
      case RequestOn(conn, _, env) =>
        conn in conns && sids.elementCount < Primes.LIMIT &&
        BM.IndexOfSid(model.sessions, env.newSid) == |model.sessions|
      case ConnectionEnd(conn) => conn in conns
      case StanzasFor(client, _, _) => client in everyone
      case WritableFor(client, _, _) => client in everyone
      case ErrorOn(client) => client in everyone
      case TimeCheck => true
    }

    /** The clients the callback is about, as far as it is about any, are live. */
    ghost predicate AboutLive(cb: Callback)
      reads this`clients
    {
      match cb
      case StanzasFor(client, _, _) => client in clients
      case WritableFor(client, _, _) => client in clients
      case ErrorOn(client) => client in clients
      case _ => true
    }

    method HandleLive(cb: Callback, now: int)
      requires Valid() && Supplied(cb) && AboutLive(cb)
      modifies this, clients, conns, connections`nodes, connections.head, connections.nodes
      modifies sids, sids.table, sids.nodes
      ensures Valid() && model == Step(old(model), cb.Event(), now)
      ensures Grown() && LeftClosed(old(clients))
    {
      hide Valid, BM.HandleRequest, BM.ClearHttp, BM.ReadJabber, BM.XmppReady, BM.CloseClient, BM.CheckTimeout;
      ListValid();
      match cb
      case RequestOn(conn, request, env) => HandleRequest(conn, request, env, now);
      case ConnectionEnd(conn) => ConnectionClosed(conn, now);
      case StanzasFor(client, items, end) =>
        ghost var i := IndexOf(client);
        ReadJabber(client, items, end, now, i);
      case WritableFor(client, error, sends) =>
        ghost var i := IndexOf(client);
        XmppReady(client, error, sends, now, i);
      case ErrorOn(client) => CloseOne(client, now);
      case TimeCheck => CheckTimeout(now);
    }

    /** A callback that reaches its handler is an event the model allows. */
    lemma Allowed(cb: Callback)
      requires Valid() && Buried() && Supplied(cb) && cb.Reaches()
      ensures AboutLive(cb) && Enabled(model, cb.Event())
    {
      match cb
      case StanzasFor(client, _, _) => Watching(client);
      case WritableFor(client, _, _) => Watching(client);
      case ErrorOn(client) => Watching(client);
      case _ =>
    }

    lemma Watching(client: JabberClient)
      requires Valid() && client in clients
      ensures SocketOf(model, client.uid) == Some(client.sock)
    {
      hide Valid;
      ghost var i := IndexOf(client);
      ListValid();
      ClientAt(i);
    }

    lemma GoesOn(st: State, past: seq<Timed>, e: Timed)
      requires Possible(st, past) && Enabled(Run(st, past), e.event)
      ensures Possible(st, past + [e]) && Run(st, past + [e]) == Step(Run(st, past), e.event, e.now)
    {
      BP.RunSnoc(st, past, e);
    }

    /** Whatever callback of the poll reaches its handler, its client is live, the
        heap takes the step of the model, and its history is a possible run. */
    method HandleCallback(cb: Callback, now: int)
      requires Valid() && Buried() && Lived() && Supplied(cb) && cb.Reaches()
      modifies this, clients, conns, connections`nodes, connections.head, connections.nodes
      modifies sids, sids.table, sids.nodes
      ensures Valid() && Buried() && Lived() && Grown()
      ensures Enabled(old(model), cb.Event()) && model == Step(old(model), cb.Event(), now)
      ensures history == old(history) + [Timed(now, cb.Event())]
    {
      hide Valid, Step, NodesGrown, Enabled, Run, Possible;
      Allowed(cb);
      ghost var past, e := history, Timed(now, cb.Event());
      GoesOn(Initial(sessionTimeout), past, e);
      HandleLive(cb, now);
      history := past + [e];
    }

    /** The body of the loop of `sm_poll`, down to the handler: an entry of the
        batch whose callback has been cleared since the batch was filled is
        passed over, whatever became of the object its user data points to. */
    method Dispatch(cb: Callback, now: int) returns (called: bool)
      requires Valid() && Buried() && Lived() && Supplied(cb)
      modifies this, clients, conns, connections`nodes, connections.head, connections.nodes
      modifies sids, sids.table, sids.nodes
      ensures Valid() && Buried() && Lived() && Grown() && called == old(cb.Reaches())
      ensures history == old(history) + if called then [Timed(now, cb.Event())] else []
      ensures model == if called then Step(old(model), cb.Event(), now) else old(model)
    {
      hide Valid, Step, Supplied, Run, Possible;
      called := cb.Reaches();
      if called {
        HandleCallback(cb, now);
      }
    }

    /** What the broker has promised each client, in its own record: its queue is
        what has not been delivered yet, stanza by stanza and in the text sent; the
        XMPP server has accepted a prefix of what was posted and is listened to;
        and the hold time is the one the client asked for. */
    lemma ClientPromises(client: JabberClient)
      requires Valid() && Lived() && client in clients
      ensures BD.Delivered(model.out, client.uid) + client.outputQueue == BD.Received(history, client.uid)
      ensures BQ.DeliveredText(model.out, client.uid) + Concat(client.outputQueue) ==
                Concat(BD.Received(history, client.uid))
      ensures client.sock.accepted <= BS.Posted(Initial(sessionTimeout), history, client.uid)
      ensures client.sock.status == Connected ==> PollIn in client.sock.mask
      ensures var asked := BQ.Asked(Initial(sessionTimeout), history, client.uid);
              asked.Some? && asked.value.wait.Some? && client.wait == 1000 * asked.value.wait.value
      ensures client.connection != null ==> client.outputQueue == []
      ensures BT.LastActivity(Initial(sessionTimeout), history, client.uid) == Some(client.timestamp)
    {
      hide Valid, Run, Possible;
      ghost var i := IndexOf(client);
      ListValid();
      ClientAt(i);
      BD.DeliveryExact(sessionTimeout, history, client.uid);
      BQ.TextExact(sessionTimeout, history, client.uid);
      BQ.WaitExact(sessionTimeout, history, client.uid);
      LiveNumber(client.uid);
      BS.AcceptedPrefix(sessionTimeout, history, client.uid);
      BT.TimestampExact(sessionTimeout, history, client.uid);
    }

    lemma LiveNumber(u: Uid)
      requires Valid() && Live(model, u)
      ensures u < model.nextUid
    {
      hide SockOk, ListOk, HashOk, ConnsShowAmong;
    }

    /** What the broker has promised each connection: every request that came on
        it was answered once, is held by one session, or was lost to its end. */
    lemma ConnectionPromises(conn: HttpConnection)
      requires Valid() && Lived() && conn in conns
      ensures BL.Requests(history, Some(conn.id)) ==
                |conn.answers| + BL.Holding(model.sessions, Some(conn.id)) + BL.LostRequests(model.out, Some(conn.id))
    {
      hide Valid, Run, Possible;
      CallbackAt(conn);
      AnswersCount(model.out, conn.id);
      BL.LedgerBalances(sessionTimeout, history, Some(conn.id));
    }

    lemma {:induction false} AnswersCount(out: seq<Out>, conn: Conn)
      ensures |AnswersTo(out, conn)| == BL.Answers(out, Some(conn))
    {
      if out != [] {
        AnswersCount(out[..|out| - 1], conn);
      }
    }

    /** `hc_create`: the HTTP server has a new connection, with no callback set. */
    method Accept(id: Conn) returns (conn: HttpConnection)
      requires Valid() && id !in model.callbacks && AnswersTo(model.out, id) == []
      requires forall c | c in conns :: c.id != id
      modifies this`conns
      ensures Valid() && fresh(conn) && conn.id == id && conn.open && conn.closeData == null
      ensures conns == old(conns) + {conn} && model == old(model)
    {
      hide SockOk, BI.Inv, ListOk, HashOk;
      conn := new HttpConnection(id);
      conns := conns + {conn};
      forall c | c in conns ensures ConnShows(c, clients, model.callbacks, model.out) {
        if c != conn {
          assert old(ConnShows(c, clients, model.callbacks, model.out));
        }
      }
    }
  }
}
