/** The incremental framing of requests in src/http_server.c: bytes arrive in
    arbitrary pieces, and requests come out. */
module HttpFraming {
  import opened Common
  import opened HttpHeader
  import opened Numbers

  const MAX_BUFFER_SIZE: nat := 1024 * 128

  /** The C string at the front of some bytes. */
  function CString(bytes: Bytes): Bytes {
    bytes[..IndexFrom(bytes, '\0', 0)]
  }

  function ContentLength(h: Header): int {
    match GetField(h.fields, "Content-Length")
    case None => 0
    case Some(value) => Atoi(value)
  }

  /** The received bytes not consumed yet, and the header once it is complete. */
  datatype Frame = Frame(buffer: Bytes, header: Option<Header>)

  datatype Outcome = Nothing | Request(header: Header, body: Bytes) | TooBig

  /** `hc_process`.  A header that does not end in CR LF CR LF or announces a
      negative length is outside the model; nothing happens then. */
  function Process(f: Frame): (Frame, Outcome)
    requires f.header.Some?
  {
    var size := ContentLength(f.header.value);
    var end := Find(CString(f.buffer), HEADER_END, 0);
    if end.None? || size < 0 then (f, Nothing)
    else
      var headerSize := end.value + 4;
      if size + headerSize >= MAX_BUFFER_SIZE then (f, TooBig)
      else if |f.buffer| >= headerSize + size then
        (Frame(f.buffer[headerSize + size..], None),
         Request(f.header.value, f.buffer[headerSize..headerSize + size]))
      else (f, Nothing)
  }

  /** `hc_read` when some bytes arrive. */
  function Receive(f: Frame, chunk: Bytes): (Frame, Outcome) {
    var buffer := f.buffer + chunk;
    var header := if f.header.None? then Parse(CString(buffer)) else f.header;
    var next := Frame(buffer, header);
    if header.Some? then Process(next) else (next, Nothing)
  }

  // ----- well-formed streams -----

  datatype Message = Message(header: Header, version: Bytes, body: Bytes)

  function Head(m: Message): Bytes {
    Print(m.header, m.version)
  }

  function Wire(m: Message): Bytes {
    Head(m) + m.body
  }

  /** A header the parser understands. */
  predicate HeadOk(m: Message) {
    && LineOk(m.header.verb, m.header.path, m.version)
    && FieldsOk(m.header.fields) && 1 <= |m.header.fields| <= MAX_HTTP_FIELDS
    && Without(Head(m), '\0')
  }

  /** The first Content-Length field stands for `n`; without one, `n` is zero. */
  ghost predicate Announces(h: Header, n: int) {
    match GetField(h.fields, "Content-Length")
    case None => n == 0
    case Some(value) => StandsFor(value, n)
  }

  /** A request the parser understands, whose body is as long as it says, and
      which the buffer has room for. */
  ghost predicate WellFormed(m: Message) {
    HeadOk(m) && Announces(m.header, |m.body|) && |Wire(m)| < MAX_BUFFER_SIZE
  }

  /** The length read from a header is exactly the one it announces. */
  lemma AnnouncedLength(h: Header, n: int)
    ensures ContentLength(h) == n <==> Announces(h, n)
  {
    hide StandsFor, Atoi;
    var value := GetField(h.fields, "Content-Length");
    if value.Some? {
      AtoiExact(value.value, n);
    }
  }

  /** A field in decimal notation announces its number. */
  lemma DecimalAnnounces(h: Header, n: nat)
    requires GetField(h.fields, "Content-Length") == Some(Decimal(n))
    ensures Announces(h, n) && ContentLength(h) == n
  {
    hide Atoi, Decimal;
    DecimalReads(n, [], []);
    assert [] + (Decimal(n) + []) == Decimal(n);
    AnnouncedLength(h, n);
  }

  function Stream(messages: seq<Message>): Bytes {
    if messages == [] then [] else Wire(messages[0]) + Stream(messages[1..])
  }

  // ----- where a printed header ends -----

  /** Lines, and the blank line after them. */
  function PrintLines(lines: seq<Bytes>): Bytes {
    if lines == [] then LINE_SEP else lines[0] + LINE_SEP + PrintLines(lines[1..])
  }

  predicate LinesOk(lines: seq<Bytes>) {
    forall k | 0 <= k < |lines| :: lines[k] != [] && Without(lines[k], '\n')
  }

  function FieldTexts(fields: seq<Field>): seq<Bytes> {
    if fields == [] then [] else [fields[0].name + ":" + fields[0].value] + FieldTexts(fields[1..])
  }

  lemma {:induction false} FieldsAreLines(fields: seq<Field>)
    requires forall k | 0 <= k < |fields| :: FieldOk(fields[k])
    ensures PrintFields(fields) == PrintLines(FieldTexts(fields)) && LinesOk(FieldTexts(fields))
  {
    if fields != [] {
      FieldsAreLines(fields[1..]);
      var lines := FieldTexts(fields);
      assert lines[1..] == FieldTexts(fields[1..]);
      assert FieldOk(fields[0]);
      assert forall k | 1 <= k < |lines| :: lines[k] == lines[1..][k - 1];
    }
  }

  /** `HEADER_END` byte by byte. */
  predicate BlankAt(s: Bytes, j: nat) {
    j + 4 <= |s| && s[j] == '\r' && s[j + 1] == '\n' && s[j + 2] == '\r' && s[j + 3] == '\n'
  }

  predicate TwoFeedsAt(s: Bytes, j: nat) {
    j + 2 <= |s| && s[j] == '\n' && s[j + 1] == '\n'
  }

  lemma ByteByByte(s: Bytes, j: nat)
    ensures OccursAt(s, HEADER_END, j) <==> BlankAt(s, j)
    ensures OccursAt(s, "\n\n", j) <==> TwoFeedsAt(s, j)
  {
    if j + 4 <= |s| {
      assert s[j..j + 4] == [s[j], s[j + 1], s[j + 2], s[j + 3]];
    }
    if j + 2 <= |s| {
      assert s[j..j + 2] == [s[j], s[j + 1]];
    }
  }

  /** The bytes of some lines: the first line, its end, the others. */
  lemma LinesBytes(lines: seq<Bytes>)
    requires lines != []
    ensures var text, line, more := PrintLines(lines), lines[0], PrintLines(lines[1..]);
            var n := |line| + 2;
            && |text| == n + |more|
            && (forall k | 0 <= k < |line| :: text[k] == line[k])
            && text[n - 2] == '\r' && text[n - 1] == '\n'
            && (forall k | n <= k < |text| :: text[k] == more[k - n])
  {
    var front, more := lines[0] + LINE_SEP, PrintLines(lines[1..]);
    assert PrintLines(lines) == front + more;
    hide PrintLines;
  }

  lemma LinesStart(lines: seq<Bytes>)
    requires LinesOk(lines)
    ensures |PrintLines(lines)| >= 2 && PrintLines(lines)[0] != '\n'
    ensures PrintLines(lines)[1] == '\n' ==> lines == []
  {
    if lines != [] {
      LinesBytes(lines);
    }
  }

  /** The blank line is the only place where a header can end, and no line feed
      follows another. */
  lemma {:induction false} BlankLineOnce(lines: seq<Bytes>, j: nat)
    requires LinesOk(lines)
    ensures BlankAt(PrintLines(lines), j) ==> j + 4 == |PrintLines(lines)|
    ensures !TwoFeedsAt(PrintLines(lines), j)
    decreases |lines|
  {
    if lines != [] {
      var text, more, n := PrintLines(lines), PrintLines(lines[1..]), |lines[0]| + 2;
      LinesBytes(lines);
      LinesStart(lines[1..]);
      hide PrintLines;
      if j >= n {
        assert BlankAt(text, j) ==> BlankAt(more, j - n);
        assert TwoFeedsAt(text, j) ==> TwoFeedsAt(more, j - n);
        BlankLineOnce(lines[1..], j - n);
      } else if j == n - 2 {
        OnlyBlank(lines[1..]);
      }
    }
  }

  lemma OnlyBlank(lines: seq<Bytes>)
    ensures lines == [] ==> |PrintLines(lines)| == 2
  {
  }

  lemma RequestLineOk(m: Message)
    requires LineOk(m.header.verb, m.header.path, m.version)
    ensures var line := RequestLine(m.header.verb, m.header.path, m.version);
            line != [] && Without(line, '\n')
  {
  }

  /** The lines of a well-formed header. */
  lemma HeadIsLines(m: Message) returns (lines: seq<Bytes>)
    requires HeadOk(m)
    ensures lines != [] && LinesOk(lines) && Head(m) == PrintLines(lines)
  {
    hide LineOk, FieldOk, RequestLine;
    var line := RequestLine(m.header.verb, m.header.path, m.version);
    RequestLineOk(m);
    FieldsAreLines(m.header.fields);
    var texts := FieldTexts(m.header.fields);
    lines := [line] + texts;
    assert lines[1..] == texts;
    assert forall k | 1 <= k < |lines| :: lines[k] == texts[k - 1];
    AppendAssociates(line, LINE_SEP, PrintFields(m.header.fields));
  }

  /** In the bytes of a well-formed header, the end of a header occurs at the
      end only, and two line feeds never. */
  lemma HeadEndsOnce(m: Message, j: nat)
    requires HeadOk(m)
    ensures |Head(m)| >= 4 && OccursAt(Head(m), HEADER_END, |Head(m)| - 4)
    ensures OccursAt(Head(m), HEADER_END, j) ==> j + 4 == |Head(m)|
    ensures !OccursAt(Head(m), "\n\n", j)
  {
    hide HeadOk;
    var lines := HeadIsLines(m);
    BlankLineOnce(lines, j);
    ByteByByte(Head(m), j);
    HeadEnds(m);
  }

  lemma HeadEnds(m: Message)
    requires HeadOk(m)
    ensures |Head(m)| >= 4 && OccursAt(Head(m), HEADER_END, |Head(m)| - 4)
  {
    hide LineOk, FieldOk, RequestLine, PrintFields;
    var head, text := Head(m), PrintFields(m.header.fields);
    var front := RequestLine(m.header.verb, m.header.path, m.version) + LINE_SEP;
    FieldsEnd(m.header.fields);
    assert head == front + text;
    assert head[|head| - 4..|head|] == text[|text| - 4..];
  }

  // ----- what one read sees -----

  lemma PrefixOccurs(a: Bytes, b: Bytes, pattern: Bytes, j: nat)
    requires a <= b && OccursAt(a, pattern, j)
    ensures OccursAt(b, pattern, j)
  {
    assert b[..|a|] == a;
    assert b[j..j + |pattern|] == b[..|a|][j..j + |pattern|];
  }

  /** Too little of a header is recognised as incomplete. */
  lemma IncompleteHead(m: Message, buffer: Bytes)
    requires HeadOk(m) && buffer < Head(m)
    ensures CString(buffer) == buffer && Parse(buffer) == None
  {
    hide OccursAt, PrintFields, RequestLine, Print;
    assert Without(buffer, '\0') by {
      assert forall k | 0 <= k < |buffer| :: buffer[k] == Head(m)[k];
    }
    var end, feeds := Find(buffer, HEADER_END, 0), Find(buffer, "\n\n", 0);
    if end.Some? {
      PrefixOccurs(buffer, Head(m), HEADER_END, end.value);
      HeadEndsOnce(m, end.value);
      InBounds(buffer, HEADER_END, end.value);
      assert false;
    }
    if feeds.Some? {
      PrefixOccurs(buffer, Head(m), "\n\n", feeds.value);
      HeadEndsOnce(m, feeds.value);
      assert false;
    }
  }

  lemma InBounds(s: Bytes, pattern: Bytes, j: nat)
    requires OccursAt(s, pattern, j)
    ensures j + |pattern| <= |s|
  {
  }

  /** A C string that starts with bytes without a zero goes on after them. */
  lemma CStringExtends(head: Bytes, rest: Bytes)
    requires Without(head, '\0')
    ensures CString(head + rest) == head + CString(rest)
  {
    var all := head + rest;
    var i, j := IndexFrom(all, '\0', 0), IndexFrom(rest, '\0', 0);
    assert forall k | 0 <= k < |head| :: all[k] == head[k];
    assert forall k | 0 <= k < |rest| :: all[|head| + k] == rest[k];
    assert i == |head| + j;
  }

  /** A complete header is parsed whatever follows it, and found to end where it
      ends. */
  lemma CompleteHead(m: Message, rest: Bytes)
    requires HeadOk(m)
    ensures Parse(CString(Head(m) + rest)) == Some(m.header)
    ensures Find(CString(Head(m) + rest), HEADER_END, 0) == Some(|Head(m)| - 4)
  {
    hide OccursAt, PrintFields, RequestLine, Print, Parse, LineOk, FieldsOk;
    CStringExtends(Head(m), rest);
    PrintThenParse(m.header, m.version, CString(rest));
    var s := CString(Head(m) + rest);
    assert Head(m) <= s;
    HeadEndsOnce(m, 0);
    PrefixOccurs(Head(m), s, HEADER_END, |Head(m)| - 4);
    var found := Find(s, HEADER_END, 0);
    var j := found.value;
    if j + 4 < |Head(m)| {
      OccursWithin(Head(m), s, HEADER_END, j);
      HeadEndsOnce(m, j);
      assert false;
    }
  }

  lemma OccursWithin(a: Bytes, b: Bytes, pattern: Bytes, j: nat)
    requires a <= b && OccursAt(b, pattern, j) && j + |pattern| <= |a|
    ensures OccursAt(a, pattern, j)
  {
    assert b[..|a|] == a;
    assert b[j..j + |pattern|] == b[..|a|][j..j + |pattern|];
  }

  // ----- one read -----

  ghost predicate AllWellFormed(messages: seq<Message>) {
    forall k | 0 <= k < |messages| :: WellFormed(messages[k])
  }

  /** What holds of a connection whose unconsumed bytes begin `Stream(messages)`. */
  ghost predicate Awaiting(messages: seq<Message>, f: Frame) {
    && f.buffer <= Stream(messages)
    && |f.buffer| < MAX_BUFFER_SIZE
    && (f.header.Some? ==>
         messages != [] && f.header.value == messages[0].header && Head(messages[0]) <= f.buffer)
  }

  lemma SplitPrefix(b: Bytes, a: Bytes, rest: Bytes)
    requires b <= a + rest
    ensures |b| < |a| ==> b < a
    ensures |a| <= |b| ==> a <= b && b == a + b[|a|..] && b[|a|..] <= rest
  {
    var whole := a + rest;
    assert b == whole[..|b|];
    if |b| < |a| {
      assert b == a[..|b|];
    } else {
      assert b[..|a|] == a;
      assert b[|a|..] == rest[..|b| - |a|];
    }
  }

  /** What `hc_process` does with a complete header, told by the message: one whose
      header and body reach the limit is too big; otherwise the body is dispatched
      exactly when all of it is there. */
  lemma ProcessExact(m: Message, b: Bytes)
    requires HeadOk(m) && Announces(m.header, |m.body|) && Head(m) <= b
    requires |Wire(m)| <= |b| ==> Wire(m) <= b
    ensures Process(Frame(b, Some(m.header))) ==
            if |Wire(m)| >= MAX_BUFFER_SIZE then (Frame(b, Some(m.header)), TooBig)
            else if |Wire(m)| <= |b| then (Frame(b[|Wire(m)|..], None), Request(m.header, m.body))
            else (Frame(b, Some(m.header)), Nothing)
  {
    hide Print, Find, CString, Parse, HeadOk, OccursAt, Process, ContentLength, Announces;
    CompleteHead(m, b[|Head(m)|..]);
    assert b == Head(m) + b[|Head(m)|..];
    HeadEnds(m);
    AnnouncedLength(m.header, |m.body|);
    ProcessUnfolds(Frame(b, Some(m.header)), |Head(m)|, |m.body|);
    if |Wire(m)| <= |b| {
      assert b[..|Wire(m)|] == Wire(m);
      assert b[|Head(m)|..|Wire(m)|] == Wire(m)[|Head(m)|..] == m.body;
    }
  }

  lemma ProcessUnfolds(f: Frame, headerSize: nat, size: nat)
    requires f.header.Some? && ContentLength(f.header.value) == size && headerSize >= 4
    requires Find(CString(f.buffer), HEADER_END, 0) == Some(headerSize - 4)
    ensures Process(f) ==
            if headerSize + size >= MAX_BUFFER_SIZE then (f, TooBig)
            else if headerSize + size <= |f.buffer| then
              (Frame(f.buffer[headerSize + size..], None),
               Request(f.header.value, f.buffer[headerSize..headerSize + size]))
            else (f, Nothing)
  {
  }

  lemma ReceiveUnfolds(f: Frame, chunk: Bytes, known: Option<Header>)
    requires f.header.None? ==> Parse(CString(f.buffer + chunk)) == known
    requires f.header.Some? ==> f.header == known
    ensures Receive(f, chunk) ==
            if known.Some? then Process(Frame(f.buffer + chunk, known)) else (Frame(f.buffer + chunk, None), Nothing)
  {
  }

  /** A read dispatches the first outstanding request exactly when its last byte
      has arrived, and removes that request's bytes and no others. */
  lemma ReadOne(messages: seq<Message>, f: Frame, chunk: Bytes)
    requires AllWellFormed(messages) && Awaiting(messages, f)
    requires chunk != [] && |f.buffer + chunk| <= MAX_BUFFER_SIZE && f.buffer + chunk <= Stream(messages)
    ensures messages != []
    ensures var b, m, after := f.buffer + chunk, messages[0], Receive(f, chunk);
            if |Wire(m)| <= |b| then
              && after.1 == Request(m.header, m.body)
              && after.0.buffer == b[|Wire(m)|..]
              && Awaiting(messages[1..], after.0)
            else
              && after.1 == Nothing
              && after.0.buffer == b
              && Awaiting(messages, after.0)
  {
    hide WellFormed, HeadOk, Announces, Head, Process, Receive, Parse, CString;
    var b, m, more := f.buffer + chunk, messages[0], Stream(messages[1..]);
    SizeBounds(m);
    AppendAssociates(Head(m), m.body, more);
    SplitPrefix(b, Head(m), m.body + more);
    SplitPrefix(b, Wire(m), more);
    if |b| < |Head(m)| {
      assert f.header.None? by {
        assert f.header.Some? ==> |Head(m)| <= |f.buffer|;
      }
      IncompleteHead(m, b);
      ReceiveUnfolds(f, chunk, None);
    } else {
      CompleteHead(m, b[|Head(m)|..]);
      ReceiveUnfolds(f, chunk, Some(m.header));
      ProcessExact(m, b);
    }
  }

  lemma SizeBounds(m: Message)
    requires WellFormed(m)
    ensures 4 <= |Head(m)| <= |Wire(m)| < MAX_BUFFER_SIZE
    ensures HeadOk(m) && Announces(m.header, |m.body|)
  {
    HeadEnds(m);
  }

  // ----- all reads of a connection -----

  /** The connection after some reads, and the requests they dispatched. */
  function Feed(chunks: seq<Bytes>): (Frame, seq<Outcome>) {
    if chunks == [] then (Frame([], None), [])
    else
      var (f, done) := Feed(chunks[..|chunks| - 1]);
      var (next, outcome) := Receive(f, chunks[|chunks| - 1]);
      (next, if outcome == Nothing then done else done + [outcome])
  }

  /** Reads the kernel can deliver: none is empty, none overruns the space left. */
  ghost predicate Delivered(chunks: seq<Bytes>)
    decreases |chunks|
  {
    chunks != [] ==>
      var before := chunks[..|chunks| - 1];
      && Delivered(before)
      && 1 <= |chunks[|chunks| - 1]| <= MAX_BUFFER_SIZE - |Feed(before).0.buffer|
  }

  /** How many requests lie wholly within the first `n` bytes of the stream. */
  function Complete(messages: seq<Message>, n: nat): (k: nat)
    ensures k <= |messages|
  {
    if messages == [] || n < |Wire(messages[0])| then 0
    else 1 + Complete(messages[1..], n - |Wire(messages[0])|)
  }

  /** How many requests are dispatched by some reads, from their sizes alone:
      each read catches up by at most one. */
  function Dispatched(messages: seq<Message>, chunks: seq<Bytes>): (k: nat)
    ensures k <= |messages|
    decreases |chunks|
  {
    if chunks == [] then 0
    else
      var k, arrived := Dispatched(messages, chunks[..|chunks| - 1]), Complete(messages, |Concat(chunks)|);
      if k < arrived then k + 1 else k
  }

  function Requests(messages: seq<Message>): seq<Outcome> {
    if messages == [] then [] else [Request(messages[0].header, messages[0].body)] + Requests(messages[1..])
  }

  lemma {:induction false} RequestsSnoc(messages: seq<Message>, m: Message)
    ensures Requests(messages + [m]) == Requests(messages) + [Request(m.header, m.body)]
  {
    if messages == [] {
      assert Requests([m]) == [Request(m.header, m.body)] + Requests([m][1..]);
      assert [] + [m] == [m];
    } else {
      RequestsSnoc(messages[1..], m);
      assert (messages + [m])[1..] == messages[1..] + [m];
    }
  }

  lemma {:induction false} StreamSplits(messages: seq<Message>, k: nat)
    requires k <= |messages|
    ensures Stream(messages) == Stream(messages[..k]) + Stream(messages[k..])
  {
    hide Wire;
    if k > 0 {
      StreamSplits(messages[1..], k - 1);
      assert messages[..k][1..] == messages[1..][..k - 1];
      assert messages[1..][k - 1..] == messages[k..];
      AppendAssociates(Wire(messages[0]), Stream(messages[1..][..k - 1]), Stream(messages[k..]));
    } else {
      assert messages[0..] == messages;
    }
  }

  lemma StreamSnoc(messages: seq<Message>, k: nat)
    requires k < |messages|
    ensures Stream(messages[..k + 1]) == Stream(messages[..k]) + Wire(messages[k])
  {
    var upTo := messages[..k + 1];
    StreamSplits(upTo, k);
    assert upTo[..k] == messages[..k] && upTo[k..] == [messages[k]];
    assert Stream([messages[k]]) == Wire(messages[k]) + Stream([messages[k]][1..]);
  }

  /** Request `k` has arrived exactly when more than `k` requests are complete. */
  lemma {:induction false} CompleteExact(messages: seq<Message>, n: nat, k: nat)
    requires k < |messages|
    ensures k < Complete(messages, n) <==> |Stream(messages[..k + 1])| <= n
  {
    hide Wire;
    var w := |Wire(messages[0])|;
    assert messages[..k + 1][1..] == messages[1..][..k];
    if k > 0 && w <= n {
      CompleteExact(messages[1..], n - w, k - 1);
    }
  }

  /** The connection after some reads of a stream, in terms of the stream. */
  ghost predicate Framed(messages: seq<Message>, chunks: seq<Bytes>, k: nat) {
    && k <= |messages|
    && Feed(chunks).1 == Requests(messages[..k])
    && Stream(messages[..k]) + Feed(chunks).0.buffer == Concat(chunks)
    && Awaiting(messages[k..], Feed(chunks).0)
  }

  lemma ConcatLast(chunks: seq<Bytes>)
    requires chunks != []
    ensures Concat(chunks) == Concat(chunks[..|chunks| - 1]) + chunks[|chunks| - 1]
  {
    ConcatSnoc(chunks[..|chunks| - 1], chunks[|chunks| - 1]);
    assert chunks == chunks[..|chunks| - 1] + [chunks[|chunks| - 1]];
  }

  /** Bytes after a common front. */
  lemma CancelFront(front: Bytes, a: Bytes, b: Bytes)
    requires front + a <= front + b
    ensures a <= b
  {
    assert (front + a)[|front|..] == a;
    assert (front + b)[..|front + a|][|front|..] == b[..|a|];
  }

  lemma FrontOf(a: Bytes, b: Bytes, whole: Bytes)
    requires a + b <= whole
    ensures a <= whole
  {
    assert (a + b)[..|a|] == a;
    assert whole[..|a + b|][..|a|] == whole[..|a|];
  }

  lemma FramedStep(messages: seq<Message>, chunks: seq<Bytes>, k: nat)
    requires AllWellFormed(messages) && chunks != [] && Delivered(chunks) && Concat(chunks) <= Stream(messages)
    requires Framed(messages, chunks[..|chunks| - 1], k)
    ensures k < |messages|
    ensures Framed(messages, chunks, if |Stream(messages[..k + 1])| <= |Concat(chunks)| then k + 1 else k)
  {
    hide Receive, WellFormed, Wire, Awaiting, Concat, Stream, Requests;
    var before, chunk := chunks[..|chunks| - 1], chunks[|chunks| - 1];
    var f, front := Feed(before).0, Stream(messages[..k]);
    var b := f.buffer + chunk;
    ConcatLast(chunks);
    AppendAssociates(front, f.buffer, chunk);
    StreamSplits(messages, k);
    CancelFront(front, b, Stream(messages[k..]));
    assert AllWellFormed(messages[k..]);
    ReadOne(messages[k..], f, chunk);
    assert messages[k..][0] == messages[k] && messages[k..][1..] == messages[k + 1..];
    StreamSnoc(messages, k);
    if |Wire(messages[k])| <= |b| {
      RequestsSnoc(messages[..k], messages[k]);
      assert messages[..k] + [messages[k]] == messages[..k + 1];
      FirstPart(messages[k], messages[k + 1..], messages[k..], b);
      AppendAssociates(front, Wire(messages[k]), b[|Wire(messages[k])|..]);
    }
  }

  lemma FirstPart(m: Message, more: seq<Message>, all: seq<Message>, b: Bytes)
    requires all == [m] + more && b <= Stream(all) && |Wire(m)| <= |b|
    ensures b == Wire(m) + b[|Wire(m)|..]
  {
    hide Wire;
    assert all[0] == m && all[1..] == more;
    SplitPrefix(b, Wire(m), Stream(more));
  }

  /** However a stream of well-formed requests is cut into reads, what has been
      dispatched is the first requests of the stream with their exact headers
      and bodies, as many as the arrival of bytes says; the buffer is exactly
      the bytes received and not consumed, and always has room for more. */
  lemma {:induction false} CutsDoNotMatter(messages: seq<Message>, chunks: seq<Bytes>)
    requires AllWellFormed(messages) && Delivered(chunks) && Concat(chunks) <= Stream(messages)
    ensures var k := Dispatched(messages, chunks);
            && Feed(chunks).1 == Requests(messages[..k])
            && Stream(messages[..k]) + Feed(chunks).0.buffer == Concat(chunks)
            && |Feed(chunks).0.buffer| < MAX_BUFFER_SIZE
            && Framed(messages, chunks, k)
    decreases |chunks|
  {
    hide Receive, Concat, Stream;
    if chunks == [] {
      NothingYet(messages);
    } else {
      var before := chunks[..|chunks| - 1];
      var k := Dispatched(messages, before);
      ConcatLast(chunks);
      FrontOf(Concat(before), chunks[|chunks| - 1], Stream(messages));
      CutsDoNotMatter(messages, before);
      FramedStep(messages, chunks, k);
      CompleteExact(messages, |Concat(chunks)|, k);
    }
  }

  lemma NothingYet(messages: seq<Message>)
    ensures Framed(messages, [], 0)
  {
  }

  lemma {:induction false} NeverCountedAhead(messages: seq<Message>, chunks: seq<Bytes>)
    ensures Dispatched(messages, chunks) <= Complete(messages, |Concat(chunks)|)
    decreases |chunks|
  {
    hide Concat;
    if chunks != [] {
      var before := chunks[..|chunks| - 1];
      NeverCountedAhead(messages, before);
      ConcatLast(chunks);
      CompleteMonotone(messages, |Concat(before)|, |Concat(chunks)|);
    }
  }

  lemma {:induction false} CompleteMonotone(messages: seq<Message>, m: nat, n: nat)
    requires m <= n
    ensures Complete(messages, m) <= Complete(messages, n)
  {
    hide Wire;
    if messages != [] && |Wire(messages[0])| <= m {
      CompleteMonotone(messages[1..], m - |Wire(messages[0])|, n - |Wire(messages[0])|);
    }
  }

  /** Requests complete after the first `j` reads. */
  function CompleteAfter(messages: seq<Message>, chunks: seq<Bytes>, j: nat): nat
    requires j <= |chunks|
  {
    Complete(messages, |Concat(chunks[..j])|)
  }

  lemma PromptCounts(messages: seq<Message>, chunks: seq<Bytes>)
    requires AllWellFormed(messages)
    ensures (forall j | 0 <= j <= |chunks| :: Dispatched(messages, chunks[..j]) == CompleteAfter(messages, chunks, j))
       <==> (forall j | 0 <= j < |chunks| ::
               CompleteAfter(messages, chunks, j + 1) <= CompleteAfter(messages, chunks, j) + 1)
  {
    hide Complete, WellFormed, Concat;
    forall j | 0 <= j < |chunks|
      ensures Dispatched(messages, chunks[..j + 1]) ==
              var k := Dispatched(messages, chunks[..j]);
              if k < CompleteAfter(messages, chunks, j + 1) then k + 1 else k
    {
      assert chunks[..j + 1][..j] == chunks[..j];
    }
    if forall j | 0 <= j < |chunks| ::
         CompleteAfter(messages, chunks, j + 1) <= CompleteAfter(messages, chunks, j) + 1 {
      PromptSoFar(messages, chunks, |chunks|);
    }
  }

  /** What holds of all reads holds of the first of them. */
  lemma {:induction false} FirstReads(messages: seq<Message>, chunks: seq<Bytes>, j: nat)
    requires Delivered(chunks) && Concat(chunks) <= Stream(messages) && j <= |chunks|
    ensures Delivered(chunks[..j]) && Concat(chunks[..j]) <= Stream(messages)
    decreases |chunks|
  {
    hide Feed, Stream;
    if j == |chunks| {
      assert chunks[..j] == chunks;
    } else {
      var before := chunks[..|chunks| - 1];
      ConcatLast(chunks);
      FrontOf(Concat(before), chunks[|chunks| - 1], Stream(messages));
      FirstReads(messages, before, j);
      assert before[..j] == chunks[..j];
    }
  }

  /** The number of requests dispatched is the one the sizes tell. */
  lemma DispatchedMany(messages: seq<Message>, chunks: seq<Bytes>, j: nat)
    requires AllWellFormed(messages) && Delivered(chunks) && Concat(chunks) <= Stream(messages) && j <= |chunks|
    ensures |Feed(chunks[..j]).1| == Dispatched(messages, chunks[..j])
  {
    hide Feed, Stream, Concat, Delivered, WellFormed, Dispatched, Awaiting;
    FirstReads(messages, chunks, j);
    CutsDoNotMatter(messages, chunks[..j]);
    RequestsPrefix(messages, Dispatched(messages, chunks[..j]), 0);
  }

  /** No more is dispatched than has arrived, so two ways to cut the same bytes
      can differ only in how far dispatching lags. */
  lemma NeverAhead(messages: seq<Message>, chunks: seq<Bytes>)
    requires AllWellFormed(messages) && Delivered(chunks) && Concat(chunks) <= Stream(messages)
    ensures |Feed(chunks).1| <= Complete(messages, |Concat(chunks)|)
  {
    hide Feed, Stream, Concat, Delivered, WellFormed, Dispatched;
    DispatchedMany(messages, chunks, |chunks|);
    assert chunks[..|chunks|] == chunks;
    NeverCountedAhead(messages, chunks);
  }

  /** After every read all complete requests have been dispatched, exactly when
      no read completes two of them: a read that does leaves one behind. */
  lemma PromptExact(messages: seq<Message>, chunks: seq<Bytes>)
    requires AllWellFormed(messages) && Delivered(chunks) && Concat(chunks) <= Stream(messages)
    ensures (forall j | 0 <= j <= |chunks| :: |Feed(chunks[..j]).1| == CompleteAfter(messages, chunks, j))
       <==> (forall j | 0 <= j < |chunks| ::
               CompleteAfter(messages, chunks, j + 1) <= CompleteAfter(messages, chunks, j) + 1)
  {
    hide Feed, Stream, Concat, Delivered, WellFormed, Dispatched, CompleteAfter;
    forall j | 0 <= j <= |chunks| ensures |Feed(chunks[..j]).1| == Dispatched(messages, chunks[..j]) {
      DispatchedMany(messages, chunks, j);
    }
    PromptCounts(messages, chunks);
  }

  /** A request that posts twelve bytes. */
  function Sample(): Message {
    Message(Header("POST", "/", [Field("Content-Length", "12")]), "HTTP/1.1", "hello, world")
  }

  lemma SampleHead()
    ensures |Head(Sample())| == 38 && Without(Head(Sample()), '\0')
  {
    SampleFields();
    SampleLine();
    hide RequestLine, PrintFields;
  }

  lemma SampleLine()
    ensures RequestLine("POST", "/", "HTTP/1.1") == "POST / HTTP/1.1"
    ensures LineOk("POST", "/", "HTTP/1.1")
  {
    assert "POST" + " " + "/" == "POST /";
    assert "POST /" + " " + "HTTP/1.1" == "POST / HTTP/1.1";
  }

  lemma SampleFields()
    ensures PrintFields([Field("Content-Length", "12")]) == "Content-Length:12\r\n\r\n"
    ensures FieldsOk([Field("Content-Length", "12")])
  {
    var f := Field("Content-Length", "12");
    assert [f][1..] == [];
    assert f.name + ":" + f.value == "Content-Length:12";
  }

  lemma SampleLength()
    ensures Announces(Sample().header, 12)
  {
    var fields := [Field("Content-Length", "12")];
    assert GetField(fields, "Content-Length") == Some("12");
    assert Decimal(1) == "1";
    assert Decimal(12) == Decimal(1) + "2" == "12";
    DecimalAnnounces(Sample().header, 12);
  }

  lemma SampleWellFormed()
    ensures WellFormed(Sample())
  {
    SampleHead();
    SampleLength();
    SampleLine();
    SampleFields();
    hide Print, Announces, LineOk, FieldsOk;
  }

  /** A read that completes two requests dispatches one of them; the other stays
      in the buffer, complete, until more bytes arrive. */
  lemma OneLeftBehind()
    ensures var w := Wire(Sample());
            && AllWellFormed([Sample(), Sample()]) && Delivered([w + w])
            && Concat([w + w]) == Stream([Sample(), Sample()])
            && Feed([w + w]).1 == [Request(Sample().header, Sample().body)]
            && Feed([w + w]).0.buffer == w
  {
    var m := Sample();
    var messages, chunks := [m, m], [Wire(m) + Wire(m)];
    SampleWellFormed();
    SampleStream();
    hide Sample, WellFormed, Wire, Receive;
    CutsDoNotMatter(messages, chunks);
    assert Dispatched(messages, chunks) == 1;
    assert messages[..1] == [m];
    assert Stream([m]) == Wire(m) + Stream([m][1..]);
    assert Requests([m]) == [Request(m.header, m.body)] + Requests([m][1..]);
    CancelFront(Wire(m), Feed(chunks).0.buffer, Wire(m));
  }

  lemma SampleStream()
    ensures var w := Wire(Sample());
            && Concat([w + w]) == w + w == Stream([Sample(), Sample()])
            && 2 <= |w| && |w + w| <= MAX_BUFFER_SIZE && Delivered([w + w])
  {
    var m := Sample();
    var w := Wire(m);
    SampleWellFormed();
    assert |w| <= 100;
    hide Sample, Wire;
    assert [w + w][1..] == [] && [w + w][..0] == [];
    assert [m, m][1..] == [m] && [m][1..] == [];
    assert Stream([m]) == w + Stream([]);
  }

  lemma NoneComplete(messages: seq<Message>)
    requires AllWellFormed(messages)
    ensures Complete(messages, 0) == 0
  {
    if messages != [] {
      SizeBounds(messages[0]);
    }
  }

  lemma {:induction false} PromptSoFar(messages: seq<Message>, chunks: seq<Bytes>, n: nat)
    requires AllWellFormed(messages) && n <= |chunks|
    requires forall j | 0 <= j < |chunks| ::
               CompleteAfter(messages, chunks, j + 1) <= CompleteAfter(messages, chunks, j) + 1
    ensures forall j | 0 <= j <= n :: Dispatched(messages, chunks[..j]) == CompleteAfter(messages, chunks, j)
  {
    hide Complete, WellFormed, Concat;
    if n == 0 {
      assert Concat(chunks[..0]) == [] by { EmptyConcat(); }
      NoneComplete(messages);
    } else {
      PromptSoFar(messages, chunks, n - 1);
      assert chunks[..n][..n - 1] == chunks[..n - 1];
      ConcatLast(chunks[..n]);
      CompleteMonotone(messages, |Concat(chunks[..n - 1])|, |Concat(chunks[..n])|);
    }
  }

  lemma EmptyConcat()
    ensures Concat<char>([]) == []
  {
  }

  /** Two ways to cut the same bytes: the requests dispatched one way begin
      those dispatched the other way, and equally many leave the same buffer. */
  lemma TwoCuts(messages: seq<Message>, a: seq<Bytes>, b: seq<Bytes>)
    requires AllWellFormed(messages) && Delivered(a) && Delivered(b)
    requires Concat(a) == Concat(b) <= Stream(messages)
    ensures Feed(a).1 <= Feed(b).1 || Feed(b).1 <= Feed(a).1
    ensures |Feed(a).1| == |Feed(b).1| ==> Feed(a).1 == Feed(b).1 && Feed(a).0.buffer == Feed(b).0.buffer
  {
    hide Feed, Delivered, Concat, Stream, Awaiting, WellFormed, Dispatched;
    CutsDoNotMatter(messages, a);
    CutsDoNotMatter(messages, b);
    var j, k := Dispatched(messages, a), Dispatched(messages, b);
    RequestsPrefix(messages, j, k);
    RequestsPrefix(messages, k, j);
    if j == k {
      assert (Stream(messages[..j]) + Feed(a).0.buffer)[|Stream(messages[..j])|..] == Feed(a).0.buffer;
    }
  }

  lemma {:induction false} RequestsPrefix(messages: seq<Message>, j: nat, k: nat)
    requires j <= |messages| && k <= |messages|
    ensures |Requests(messages[..j])| == j
    ensures j <= k ==> Requests(messages[..j]) <= Requests(messages[..k])
  {
    if j > 0 {
      assert messages[..j][1..] == messages[1..][..j - 1];
      if j <= k {
        assert messages[..k][1..] == messages[1..][..k - 1];
      }
      RequestsPrefix(messages[1..], j - 1, if k == 0 then 0 else k - 1);
    }
  }

  // ----- messages that are too big -----

  lemma CStringGrows(a: Bytes, b: Bytes)
    ensures CString(a) <= CString(a + b)
    ensures IndexFrom(a, '\0', 0) < |a| ==> CString(a + b) == CString(a)
  {
    var all, i := a + b, IndexFrom(a, '\0', 0);
    assert forall k | 0 <= k < |a| :: all[k] == a[k];
    assert IndexFrom(all, '\0', 0) >= i;
  }

  lemma FoundAgain(a: Bytes, b: Bytes, pattern: Bytes)
    requires a <= b && Find(a, pattern, 0).Some?
    ensures Find(b, pattern, 0) == Find(a, pattern, 0)
  {
    var i, j := Find(a, pattern, 0).value, Find(b, pattern, 0);
    PrefixOccurs(a, b, pattern, i);
    if j.Some? && j.value < i {
      InBounds(a, pattern, i);
      OccursWithin(a, b, pattern, j.value);
      assert false;
    }
  }

  /** Once a message has been reported as too big, every later read reports it
      again and only adds to the buffer, so that the buffer fills up; the read
      after that asks the kernel for no bytes and closes the connection. */
  lemma TooBigForGood(f: Frame, chunk: Bytes)
    requires f.header.Some? && Process(f).1 == TooBig
    ensures Receive(f, chunk) == (Frame(f.buffer + chunk, f.header), TooBig)
  {
    hide Find, CString, ContentLength;
    CStringGrows(f.buffer, chunk);
    FoundAgain(CString(f.buffer), CString(f.buffer + chunk), HEADER_END);
  }

  /** A zero byte before the end of a header hides everything after it: no request
      is ever dispatched on that connection, whatever arrives. */
  lemma ZeroHides(a: Bytes, b: Bytes, chunk: Bytes)
    requires Without(a, '\0') && Parse(a) == None
    ensures Receive(Frame(a + ("\0" + b), None), chunk) == (Frame(a + ("\0" + (b + chunk)), None), Nothing)
  {
    hide Parse;
    var rest := "\0" + (b + chunk);
    assert a + ("\0" + b) + chunk == a + rest;
    CStringExtends(a, rest);
    assert IndexFrom(rest, '\0', 0) == 0 && CString(rest) == [];
    assert a + [] == a;
  }

  // ----- the buffer of a connection -----

  /** The part of `HttpConnection` that collects requests: a fixed buffer with
      room for a terminating zero, how much of it is in use, and the header read
      from it. */
  class RequestBuffer {
    const buffer: array<char>
    var bufferSize: nat
    var header: Option<Header>

    ghost predicate Valid()
      reads this
    {
      buffer.Length == MAX_BUFFER_SIZE + 1 && bufferSize <= MAX_BUFFER_SIZE
    }

    ghost function Model(): Frame
      reads this, buffer
      requires Valid()
    {
      Frame(buffer[..bufferSize], header)
    }

    /** `hc_create` */
    constructor ()
      ensures Valid() && fresh(buffer) && Model() == Frame([], None)
    {
      buffer := new char[MAX_BUFFER_SIZE + 1];
      bufferSize, header := 0, None;
    }

    /** What `sock_recv` and the terminating zero do to the buffer. */
    method Append(chunk: Bytes)
      requires Valid() && bufferSize + |chunk| <= MAX_BUFFER_SIZE
      modifies this`bufferSize, buffer
      ensures Valid() && Model() == Frame(old(Model()).buffer + chunk, old(header))
      ensures buffer[bufferSize] == '\0'
    {
      var n, i := bufferSize, 0;
      while i < |chunk|
        invariant i <= |chunk| && bufferSize == n
        invariant buffer[..n] == old(buffer[..n]) && buffer[n..n + i] == chunk[..i]
        modifies buffer
      {
        buffer[n + i] := chunk[i];
        i := i + 1;
        assert buffer[n..n + i] == chunk[..i];
      }
      bufferSize := n + |chunk|;
      buffer[bufferSize] := '\0';
      assert buffer[..bufferSize] == buffer[..n] + buffer[n..bufferSize];
    }

    /** `memmove` to the front of the buffer, then the new size */
    method Discard(n: nat)
      requires Valid() && n <= bufferSize
      modifies this`bufferSize, buffer
      ensures Valid() && Model() == Frame(old(Model()).buffer[n..], old(header))
    {
      var rest, i := bufferSize - n, 0;
      while i < rest
        invariant i <= rest && bufferSize == rest + n
        invariant forall k | 0 <= k < i :: buffer[k] == old(buffer[n + k])
        invariant forall k | i <= k < buffer.Length :: buffer[k] == old(buffer[k])
        modifies buffer
      {
        buffer[i] := buffer[n + i];
        i := i + 1;
      }
      bufferSize := rest;
      assert buffer[..rest] == old(buffer[..bufferSize])[n..];
    }

    lemma SliceOf(i: nat, j: nat)
      requires Valid() && i <= j <= bufferSize
      ensures buffer[i..j] == Model().buffer[i..j]
    {
      var a, b := buffer[i..j], buffer[..bufferSize];
      assert |a| == j - i == |b[i..j]|;
      assert forall k | 0 <= k < j - i :: a[k] == buffer[i + k] == b[i + k] == b[i..j][k];
    }

    /** `hc_process` */
    method ProcessRequest() returns (outcome: Outcome)
      requires Valid() && header.Some? && buffer[bufferSize] == '\0'
      modifies this, buffer
      ensures Valid() && (Model(), outcome) == Process(old(Model()))
    {
      hide GetField, Find, CString;
      var tmp := LookUpField(header.value.fields, "Content-Length");
      var size := if tmp.None? then 0 else Atoi(tmp.value);
      var text := StringAt();
      var end := StrStr(text, HEADER_END, 0);
      if end.None? || size < 0 {
        return Nothing;
      }
      var headerSize := end.value + 4;
      if size + headerSize >= MAX_BUFFER_SIZE {
        return TooBig;
      }
      outcome := Nothing;
      if bufferSize >= headerSize + size {
        outcome := Request(header.value, buffer[headerSize..headerSize + size]);
        SliceOf(headerSize, headerSize + size);
        header := None;
        Discard(headerSize + size);
      }
    }

    /** The buffer read as a C string */
    method StringAt() returns (text: Bytes)
      requires Valid() && buffer[bufferSize] == '\0'
      ensures text == CString(Model().buffer)
    {
      var end := 0;
      while buffer[end] != '\0'
        invariant end <= bufferSize && forall k | 0 <= k < end :: buffer[k] != '\0'
        decreases bufferSize - end
      {
        end := end + 1;
      }
      text := buffer[..end];
      assert IndexFrom(buffer[..bufferSize], '\0', 0) == end;
      assert buffer[..end] == buffer[..bufferSize][..end];
    }

    /** `hc_read` with what the kernel delivered; nothing delivered changes
        nothing. */
    method Read(chunk: Bytes) returns (outcome: Outcome)
      requires Valid() && |chunk| <= MAX_BUFFER_SIZE - bufferSize
      modifies this, buffer
      ensures Valid()
      ensures chunk == [] ==> Model() == old(Model()) && outcome == Nothing
      ensures chunk != [] ==> (Model(), outcome) == Receive(old(Model()), chunk)
    {
      hide Parse, Process, CString;
      outcome := Nothing;
      if chunk != [] {
        Append(chunk);
        if header.None? {
          var text := StringAt();
          header := ParseHeader(text);
        }
        if header.Some? {
          outcome := ProcessRequest();
        }
      }
    }
  }
}
