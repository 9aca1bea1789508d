/** The HTTP side of an answer: a connection record of src/http_server.c with its
    socket, as a value.  A flush that the kernel refuses closes the socket and
    calls nobody; only `hc_read` looks at the status afterwards. */
module HttpLinks {
  import opened Common
  import opened SocketModel

  /** `listed` says that the record is on the server's list, not deleted. */
  datatype Link = Link(sock: Sock, listed: bool)

  /** What `hs_answer_request` and `hc_report_error` send: a head, which waits for
      the body, and the body; `sends` are the kernel's answers to the flush. */
  datatype Reply = Reply(head: Bytes, body: Bytes, sends: seq<SendOutcome>)

  /** `Reading` is a call of `hc_read` with the answers given for this connection
      before it returns; `Answering` is an answer given at any other time. */
  datatype LinkOp =
    | Reading(outcome: RecvOutcome, replies: seq<Reply>)
    | Answering(reply: Reply)
    | Ready(sends: seq<SendOutcome>)
    | Failing

  /** `hc_create` on an accepted socket. */
  function NewLink(): Link {
    Link(WantData(Accepted(), true), true)
  }

  function AnswerOne(s: Sock, r: Reply): Sock {
    Send(Send(s, Some(r.head), true, []), Some(r.body), false, r.sends)
  }

  function AnswerAll(s: Sock, replies: seq<Reply>): Sock
    decreases |replies|
  {
    if replies == [] then s else AnswerAll(AnswerOne(s, replies[0]), replies[1..])
  }

  /** `hc_delete` */
  function Delete(l: Link): Link {
    Link(Close(l.sock), false)
  }

  function StepLink(l: Link, op: LinkOp): Link {
    match op
    case Reading(outcome, replies) =>
      var s := Receive(l.sock, outcome);
      var after := l.(sock := if outcome.Data? && outcome.bytes != [] then AnswerAll(s, replies) else s);
      if after.sock.status != Connected then Delete(after) else after
    case Answering(reply) => l.(sock := AnswerOne(l.sock, reply))
    case Ready(sends) => l.(sock := Writable(l.sock, 0, sends))
    case Failing => Delete(l)
  }

  /** Events come through a registered socket; answers go to a record that is there. */
  predicate CanHappen(l: Link, op: LinkOp) {
    if op.Answering? then l.listed else l.sock.open
  }

  function RunLink(ops: seq<LinkOp>): Link {
    if ops == [] then NewLink() else StepLink(RunLink(ops[..|ops| - 1]), ops[|ops| - 1])
  }

  predicate PossibleLink(ops: seq<LinkOp>) {
    ops == [] ||
    (PossibleLink(ops[..|ops| - 1]) && CanHappen(RunLink(ops[..|ops| - 1]), ops[|ops| - 1]))
  }

  // ----- what every operation keeps -----

  /** A listed record has a connected socket, which is read, or one that was
      closed under it. */
  ghost predicate LinkOk(l: Link) {
    && SockOk(l.sock) && l.sock.wantsData
    && (l.sock.open ==> l.listed && l.sock.status == Connected)
    && (!l.sock.open ==> l.sock.status == Idle)
  }

  function Text(r: Reply): Bytes {
    r.head + r.body
  }

  function Texts(replies: seq<Reply>): Bytes {
    if replies == [] then [] else Text(replies[0]) + Texts(replies[1..])
  }

  /** The bytes one operation asks to be sent. */
  function TextOf(op: LinkOp): Bytes {
    match op
    case Reading(outcome, replies) => if outcome.Data? && outcome.bytes != [] then Texts(replies) else []
    case Answering(reply) => Text(reply)
    case _ => []
  }

  function AllTexts(ops: seq<LinkOp>): Bytes {
    if ops == [] then [] else AllTexts(ops[..|ops| - 1]) + TextOf(ops[|ops| - 1])
  }

  predicate Steady(s: Sock) {
    if s.open then s.status == Connected else s.status == Idle
  }

  lemma FlushSteady(s: Sock, sends: seq<SendOutcome>)
    requires s.status == Connected && s.open
    ensures Steady(Flush(s, sends))
  {
    hide Drain;
  }

  /** One answer: the socket stays in order and breaks exactly when the kernel
      refuses it, and the kernel gets what its counts say. */
  lemma AnswerExact(s: Sock, r: Reply)
    requires SockOk(s) && Steady(s)
    ensures var t := AnswerOne(s, r);
            && SockOk(t) && Steady(t) && t.submitted == s.submitted + Text(r) && t.wantsData == s.wantsData
            && (t.open <==> s.open && !Refused(s.queue + [Item(r.head, 0), Item(r.body, 0)], r.sends))
            && (if s.open then
                  var n, pending := Took(Lengths(s.queue) + [|r.head|, |r.body|], r.sends), Pending(s.queue) + Text(r);
                  n <= |pending| && t.accepted == s.accepted + pending[..n]
                else t.accepted == s.accepted)
  {
    hide SockOk, Drain, Refused, Flush, Took, Lengths, Pending;
    var s1 := Send(s, Some(r.head), true, []);
    SendExact(s, Some(r.head), true, []);
    SendKeepsOk(s, Some(r.head), true, []);
    SendKeepsOk(s1, Some(r.body), false, r.sends);
    SendExact(s1, Some(r.body), false, r.sends);
    AppendAssociates(s.submitted, r.head, r.body);
    AppendAssociates(Pending(s.queue), r.head, r.body);
    AppendAssociates(Lengths(s.queue), [|r.head|], [|r.body|]);
    assert [|r.head|] + [|r.body|] == [|r.head|, |r.body|];
    var queue := s.queue + [Item(r.head, 0), Item(r.body, 0)];
    assert s1.queue + [Item(r.body, 0)] == queue;
    if s.open {
      QueueOk(s1, r.body);
      DrainFailsExact(queue, r.sends);
      FlushSteady(s1.(queue := queue, submitted := s1.submitted + r.body, lastMore := false), r.sends);
      FlushOpen(s1.(queue := queue, submitted := s1.submitted + r.body, lastMore := false), r.sends);
    }
  }

  lemma QueueOk(s: Sock, body: Bytes)
    requires SockOk(s)
    ensures WellQueued(s.queue + [Item(body, 0)])
  {
  }

  lemma FlushOpen(s: Sock, sends: seq<SendOutcome>)
    requires s.open
    ensures Flush(s, sends).open <==> !Drain(s.queue, sends).failed
  {
  }

  /** The kernel refuses one of the answers, given one after the other. */
  ghost predicate RefusedOne(s: Sock, replies: seq<Reply>)
    decreases |replies|
  {
    replies != [] &&
    (Refused(s.queue + [Item(replies[0].head, 0), Item(replies[0].body, 0)], replies[0].sends) ||
     RefusedOne(AnswerOne(s, replies[0]), replies[1..]))
  }

  lemma {:induction false} AnswersKeepOk(s: Sock, replies: seq<Reply>)
    requires SockOk(s) && Steady(s)
    ensures SockOk(AnswerAll(s, replies)) && Steady(AnswerAll(s, replies))
    ensures AnswerAll(s, replies).submitted == s.submitted + Texts(replies)
    ensures AnswerAll(s, replies).wantsData == s.wantsData
    ensures AnswerAll(s, replies).open <==> s.open && !RefusedOne(s, replies)
    decreases |replies|
  {
    hide SockOk, Steady, AnswerOne, Refused;
    if replies == [] {
      assert s.submitted + [] == s.submitted;
    } else {
      AnswerExact(s, replies[0]);
      AnswersKeepOk(AnswerOne(s, replies[0]), replies[1..]);
      AppendAssociates(s.submitted, Text(replies[0]), Texts(replies[1..]));
    }
  }

  /** The kernel refuses this operation's flush, and `hc_read` is not there to
      see it. */
  ghost predicate Unseen(l: Link, op: LinkOp) {
    match op
    case Answering(reply) =>
      l.sock.open && Refused(l.sock.queue + [Item(reply.head, 0), Item(reply.body, 0)], reply.sends)
    case Ready(sends) => l.sock.open && Refused(l.sock.queue, sends)
    case _ => false
  }

  ghost predicate Outlives(l: Link) {
    l.listed && !l.sock.open
  }

  /** What deletes a record: an error on its socket; a read that finds the end or
      an error; a read after which the kernel refuses an answer. */
  ghost predicate Deletes(l: Link, op: LinkOp) {
    match op
    case Reading(outcome, replies) =>
      !outcome.NoData? && !(outcome.Data? && outcome.bytes != [] && !RefusedOne(l.sock, replies))
    case Failing => true
    case _ => false
  }

  lemma StepKeepsLink(l: Link, op: LinkOp)
    requires LinkOk(l) && CanHappen(l, op)
    ensures LinkOk(StepLink(l, op))
    ensures StepLink(l, op).sock.submitted == l.sock.submitted + TextOf(op)
    ensures Outlives(StepLink(l, op)) <==> Outlives(l) || Unseen(l, op)
    ensures StepLink(l, op).listed <==> l.listed && !Deletes(l, op)
  {
    hide SockOk, Refused, RefusedOne, AnswerAll, AnswerOne, Flush;
    assert l.sock.submitted + [] == l.sock.submitted;
    match op
    case Reading(outcome, replies) => ReadingKeeps(l, outcome, replies);
    case Answering(reply) => AnswerExact(l.sock, reply);
    case Ready(sends) => ReadyKeepsLink(l, sends);
    case Failing => CloseKeepsOk(l.sock);
  }

  lemma ReadingKeeps(l: Link, outcome: RecvOutcome, replies: seq<Reply>)
    requires LinkOk(l) && l.sock.open
    ensures var l' := StepLink(l, Reading(outcome, replies));
            && LinkOk(l') && !Outlives(l') && l'.sock.submitted == l.sock.submitted + TextOf(Reading(outcome, replies))
            && (l'.listed <==> !Deletes(l, Reading(outcome, replies)))
  {
    hide SockOk, AnswerAll, RefusedOne;
    assert l.sock.submitted + [] == l.sock.submitted;
    var s := Receive(l.sock, outcome);
    ReceiveKeepsOk(l.sock, outcome);
    AnswersKeepOk(s, replies);
    CloseKeepsOk(s);
    CloseKeepsOk(AnswerAll(s, replies));
  }

  lemma ReadyKeepsLink(l: Link, sends: seq<SendOutcome>)
    requires LinkOk(l) && l.sock.open
    ensures var l' := StepLink(l, Ready(sends));
            && LinkOk(l') && l'.listed && l'.sock.submitted == l.sock.submitted
            && (l'.sock.open <==> !Refused(l.sock.queue, sends))
  {
    hide Refused, Drain, Pending, Took, Lengths;
    WritableKeepsOk(l.sock, 0, sends);
    WritableExact(l.sock, 0, sends);
    DrainFailsExact(l.sock.queue, sends);
    FlushOpen(l.sock, sends);
    FlushSteady(l.sock, sends);
  }

  // ----- whole runs -----

  /** Some flush was refused in the run while `hc_read` was not there to see it. */
  ghost predicate UnseenIn(ops: seq<LinkOp>) {
    ops != [] && (UnseenIn(ops[..|ops| - 1]) || Unseen(RunLink(ops[..|ops| - 1]), ops[|ops| - 1]))
  }

  /** In every possible run a connection record outlives its socket, staying on
      the list with nobody left to delete it, exactly when the kernel has refused
      an answer given outside `hc_read` or a later flush of one.  The bytes the
      kernel accepted are always a prefix of the answers given, in order; while
      the socket is open the queue is the rest, and it is read. */
  lemma {:induction false} OutlivesExact(ops: seq<LinkOp>)
    requires PossibleLink(ops)
    ensures var l := RunLink(ops);
            && LinkOk(l)
            && (Outlives(l) <==> UnseenIn(ops))
            && l.sock.submitted == AllTexts(ops) && l.sock.accepted <= AllTexts(ops)
            && (l.sock.open ==> l.sock.accepted + Pending(l.sock.queue) == AllTexts(ops))
            && (l.sock.open ==> PollIn in l.sock.mask)
    decreases |ops|
  {
    hide StepLink, Unseen, TextOf;
    if ops != [] {
      OutlivesExact(ops[..|ops| - 1]);
      StepKeepsLink(RunLink(ops[..|ops| - 1]), ops[|ops| - 1]);
    }
  }

  /** A request is answered from elsewhere, and the kernel refuses. */
  function RefusedAnswer(): seq<LinkOp> {
    [Answering(Reply("head", "body", [Failed]))]
  }

  lemma OutlivingHappens()
    ensures PossibleLink(RefusedAnswer()) && Outlives(RunLink(RefusedAnswer()))
  {
    var r := Reply("head", "body", [Failed]);
    assert RefusedAnswer()[..0] == [];
    var queue := [] + [Item(r.head, 0), Item(r.body, 0)];
    assert Drain(queue, [Failed]).failed;
    DrainFailsExact(queue, [Failed]);
    AnswerExact(NewLink().sock, r);
  }
}
