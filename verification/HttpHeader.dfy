/** The request header parser of src/http.c.  A C string is the sequence of its
    bytes before the terminating zero; a pointer into it is an index, and the
    index of the zero is the length. */
module HttpHeader {
  import opened Common

  const MAX_HTTP_FIELDS: nat := 64
  const LINE_SEP: Bytes := "\r\n"
  const HEADER_END: Bytes := "\r\n\r\n"

  datatype Field = Field(name: Bytes, value: Bytes)

  /** `type` is a keyword of the model's language; it is called `verb` here. */
  datatype Header = Header(verb: Bytes, path: Bytes, fields: seq<Field>)

  // ----- searching -----

  /** The first `c` at or after `from`, or the end. */
  function IndexFrom(s: Bytes, c: char, from: nat): (i: nat)
    requires from <= |s|
    ensures from <= i <= |s| && (i < |s| ==> s[i] == c)
    ensures forall k | from <= k < i :: s[k] != c
    decreases |s| - from
  {
    if from == |s| || s[from] == c then from else IndexFrom(s, c, from + 1)
  }

  predicate OccursAt(s: Bytes, pattern: Bytes, i: nat) {
    i + |pattern| <= |s| && s[i..i + |pattern|] == pattern
  }

  /** `strstr` from `from` on: the first occurrence, if any. */
  function Find(s: Bytes, pattern: Bytes, from: nat): (r: Option<nat>)
    requires from <= |s|
    ensures r.Some? ==> from <= r.value && OccursAt(s, pattern, r.value) &&
                        forall k | from <= k < r.value :: !OccursAt(s, pattern, k)
    ensures r.None? ==> forall k | from <= k <= |s| :: !OccursAt(s, pattern, k)
    decreases |s| - from
  {
    if OccursAt(s, pattern, from) then Some(from)
    else if from == |s| then None
    else Find(s, pattern, from + 1)
  }

  predicate IsSpace(c: char) {
    c == ' ' || c == '\t' || c == '\n' || c == '\U{0B}' || c == '\U{0C}' || c == '\r'
  }

  predicate IsLineEnd(c: char) {
    c == '\r' || c == '\n'
  }

  /** The first byte at or after `from` that is no white space, or the end. */
  function SkipSpaces(s: Bytes, from: nat): (i: nat)
    requires from <= |s|
    ensures from <= i <= |s| && (i < |s| ==> !IsSpace(s[i]))
    ensures forall k | from <= k < i :: IsSpace(s[k])
    decreases |s| - from
  {
    if from == |s| || !IsSpace(s[from]) then from else SkipSpaces(s, from + 1)
  }

  /** The first end-of-line byte at or after `from`, or the end. */
  function LineEnd(s: Bytes, from: nat): (i: nat)
    requires from <= |s|
    ensures from <= i <= |s| && (i < |s| ==> IsLineEnd(s[i]))
    ensures forall k | from <= k < i :: !IsLineEnd(s[k])
    decreases |s| - from
  {
    if from == |s| || IsLineEnd(s[from]) then from else LineEnd(s, from + 1)
  }

  /** The first byte at or after `from` other than `c`, or the end. */
  function SkipChar(s: Bytes, c: char, from: nat): (i: nat)
    requires from <= |s|
    ensures from <= i <= |s| && (i < |s| ==> s[i] != c)
    ensures forall k | from <= k < i :: s[k] == c
    decreases |s| - from
  {
    if from == |s| || s[from] != c then from else SkipChar(s, c, from + 1)
  }

  // ----- parsing -----

  /** At most `n` pieces of a line, separated by runs of `delim`. */
  function Split(line: Bytes, n: nat, delim: char): (parts: seq<Bytes>)
    ensures |parts| <= n
    decreases n
  {
    if line == [] || n == 0 then []
    else
      var stop := IndexFrom(line, delim, 0);
      var next := SkipChar(line, delim, stop);
      [line[..stop]] + Split(line[next..], n - 1, delim)
  }

  /** The end of the line that ends with the line feed at `feed`, without its
      carriage return. */
  function TrimEnd(s: Bytes, start: nat, feed: nat): (stop: nat)
    requires start <= feed < |s|
    ensures start <= stop <= feed
  {
    if feed > start && s[feed - 1] == '\r' then feed - 1 else feed
  }

  /** The value of a field: a colon found only beyond the line makes the length
      negative, and `strndup` then copies the rest of the string. */
  function FieldValue(s: Bytes, colon: nat, stop: nat): Bytes
    requires colon < |s| && stop <= |s|
  {
    if colon + 1 <= stop then s[colon + 1..stop] else s[colon + 1..]
  }

  /** The field loop from `start` on, with `i` fields already read. */
  function ParseFields(s: Bytes, start: nat, i: nat): Option<seq<Field>>
    requires start <= |s| && i <= MAX_HTTP_FIELDS
    decreases MAX_HTTP_FIELDS - i
  {
    if i == MAX_HTTP_FIELDS then Some([])
    else
      var feed := IndexFrom(s, '\n', start);
      if feed == |s| then None
      else
        var stop := TrimEnd(s, start, feed);
        if stop == start then Some([])
        else
          var colon := IndexFrom(s, ':', start);
          if colon == |s| then None
          else Prepend([Field(s[start..colon], FieldValue(s, colon, stop))], ParseFields(s, feed + 1, i + 1))
  }

  /** Fields read before more of them, if those could be read. */
  function Prepend(fields: seq<Field>, more: Option<seq<Field>>): Option<seq<Field>> {
    match more
    case None => None
    case Some(rest) => Some(fields + rest)
  }

  /** `http_parse`: nothing while the header is incomplete or when it is malformed. */
  function Parse(s: Bytes): Option<Header> {
    if Find(s, HEADER_END, 0).None? && Find(s, "\n\n", 0).None? then None
    else
      var end := LineEnd(s, 0);
      var parts := Split(s[..end], 3, ' ');
      if |parts| != 3 then None
      else
        var fields := ParseFields(s, SkipSpaces(s, end), 0);
        if fields.None? then None else Some(Header(parts[0], parts[1], fields.value))
  }

  /** `http_get_field`: the value of the first field with exactly this name. */
  function GetField(fields: seq<Field>, name: Bytes): Option<Bytes> {
    if fields == [] then None
    else if fields[0].name == name then Some(fields[0].value)
    else GetField(fields[1..], name)
  }

  // ----- printing -----

  function PrintFields(fields: seq<Field>): Bytes {
    if fields == [] then LINE_SEP
    else fields[0].name + ":" + fields[0].value + LINE_SEP + PrintFields(fields[1..])
  }

  function RequestLine(verb: Bytes, path: Bytes, version: Bytes): Bytes {
    verb + " " + path + " " + version
  }

  function Print(h: Header, version: Bytes): Bytes {
    RequestLine(h.verb, h.path, version) + LINE_SEP + PrintFields(h.fields)
  }

  predicate Without(s: Bytes, c: char) {
    forall k | 0 <= k < |s| :: s[k] != c
  }

  predicate OneLine(s: Bytes) {
    Without(s, '\r') && Without(s, '\n')
  }

  /** A request line whose three parts can be told apart. */
  predicate LineOk(verb: Bytes, path: Bytes, version: Bytes) {
    && OneLine(verb) && Without(verb, ' ')
    && OneLine(path) && Without(path, ' ') && path != []
    && OneLine(version) && version != [] && version[0] != ' '
  }

  predicate FieldOk(f: Field) {
    Without(f.name, ':') && Without(f.name, '\n') && Without(f.value, '\n')
  }

  /** The first field must not begin with white space: the parser skips white
      space after the request line. */
  predicate FieldsOk(fields: seq<Field>) {
    && (forall k | 0 <= k < |fields| :: FieldOk(fields[k]))
    && (fields != [] && fields[0].name != [] ==> !IsSpace(fields[0].name[0]))
  }

  function FirstFields(fields: seq<Field>): seq<Field> {
    if |fields| <= MAX_HTTP_FIELDS then fields else fields[..MAX_HTTP_FIELDS]
  }

  // ----- printing then parsing -----

  function FieldLine(f: Field): Bytes {
    f.name + ":" + f.value + LINE_SEP
  }

  lemma ByteAt(s: Bytes, pattern: Bytes, i: nat, k: nat)
    requires OccursAt(s, pattern, i) && k < |pattern|
    ensures i + k < |s| && s[i + k] == pattern[k]
  {
    assert s[i..i + |pattern|][k] == s[i + k];
  }

  lemma OccursInside(s: Bytes, a: Bytes, b: Bytes, start: nat)
    requires OccursAt(s, a + b, start)
    ensures OccursAt(s, a, start) && OccursAt(s, b, start + |a|)
  {
    var whole := s[start..start + |a + b|];
    assert whole[..|a|] == a && whole[|a|..] == b;
    assert s[start..start + |a|] == whole[..|a|];
    assert s[start + |a|..start + |a| + |b|] == whole[|a|..];
  }

  lemma SliceAt(s: Bytes, part: Bytes, i: nat)
    requires OccursAt(s, part, i)
    ensures i + |part| <= |s| && s[i..i + |part|] == part
    ensures forall k | 0 <= k < |part| :: s[i + k] == part[k]
  {
    forall k | 0 <= k < |part| ensures s[i + k] == part[k] {
      ByteAt(s, part, i, k);
    }
  }

  /** The pieces of a field in a string, whatever ends its line. */
  lemma FieldAt(s: Bytes, start: nat, f: Field, tail: Bytes)
    requires FieldOk(f) && OccursAt(s, f.name + ":" + f.value + tail, start)
    ensures var colon, stop := start + |f.name|, start + |f.name| + 1 + |f.value|;
            && stop + |tail| <= |s| && OccursAt(s, tail, stop)
            && s[start..colon] == f.name && s[colon] == ':' && s[colon + 1..stop] == f.value
            && (forall k | start <= k < colon :: s[k] != ':')
            && (forall k | start <= k < stop :: s[k] != '\n')
  {
    hide OccursAt;
    var colon, stop := start + |f.name|, start + |f.name| + 1 + |f.value|;
    OccursInside(s, f.name + ":" + f.value, tail, start);
    OccursInside(s, f.name + ":", f.value, start);
    OccursInside(s, f.name, ":", start);
    SliceAt(s, f.name, start);
    SliceAt(s, ":", colon);
    SliceAt(s, f.value, colon + 1);
    SliceAt(s, tail, stop);
    assert forall k | start <= k < colon :: s[k] == f.name[k - start];
    assert forall k | colon < k < stop :: s[k] == f.value[k - colon - 1];
  }

  /** Where the parser finds the pieces of a printed field line. */
  lemma LineFound(s: Bytes, start: nat, f: Field)
    requires FieldOk(f) && OccursAt(s, FieldLine(f), start)
    ensures var colon, stop := start + |f.name|, start + |f.name| + 1 + |f.value|;
            && stop + 1 < |s|
            && IndexFrom(s, '\n', start) == stop + 1
            && TrimEnd(s, start, stop + 1) == stop
            && IndexFrom(s, ':', start) == colon
            && s[start..colon] == f.name && FieldValue(s, colon, stop) == f.value
  {
    var stop := start + |f.name| + 1 + |f.value|;
    FieldAt(s, start, f, LINE_SEP);
    SliceAt(s, LINE_SEP, stop);
    hide OccursAt, FieldOk;
    assert s[stop] == LINE_SEP[0] && s[stop + 1] == s[stop + 1 + 0] == LINE_SEP[1];
  }

  /** One turn of the field loop on a printed field line. */
  lemma FieldStep(s: Bytes, start: nat, f: Field, i: nat)
    requires FieldOk(f) && OccursAt(s, FieldLine(f), start) && i < MAX_HTTP_FIELDS
    ensures start + |FieldLine(f)| <= |s|
    ensures var rest := ParseFields(s, start + |FieldLine(f)|, i + 1);
            ParseFields(s, start, i) == Prepend([f], rest)
  {
    hide FieldOk, OccursAt, IndexFrom, TrimEnd, FieldValue;
    LineFound(s, start, f);
  }

  lemma FieldsStop(s: Bytes, start: nat, i: nat)
    requires OccursAt(s, LINE_SEP, start) && i <= MAX_HTTP_FIELDS
    ensures ParseFields(s, start, i) == Some([])
  {
    ByteAt(s, LINE_SEP, start, 0);
    ByteAt(s, LINE_SEP, start, 1);
  }

  /** The fields the loop still has room for after `i` of them. */
  function Room(fields: seq<Field>, i: nat): seq<Field>
    requires i <= MAX_HTTP_FIELDS
  {
    if |fields| <= MAX_HTTP_FIELDS - i then fields else fields[..MAX_HTTP_FIELDS - i]
  }

  lemma RoomStep(fields: seq<Field>, i: nat)
    requires i < MAX_HTTP_FIELDS && fields != []
    ensures Room(fields, i) == [fields[0]] + Room(fields[1..], i + 1)
  {
    assert fields == [fields[0]] + fields[1..];
  }

  /** The field loop reads back printed fields, as many as it has room for,
      whatever comes before and after them. */
  lemma {:induction false} FieldsReadBack(s: Bytes, start: nat, fields: seq<Field>, i: nat)
    requires i <= MAX_HTTP_FIELDS && OccursAt(s, PrintFields(fields), start)
    requires forall k | 0 <= k < |fields| :: FieldOk(fields[k])
    ensures start <= |s| && ParseFields(s, start, i) == Some(Room(fields, i))
    decreases |fields|
  {
    hide FieldOk, ParseFields;
    if fields == [] {
      FieldsStop(s, start, i);
    } else if i < MAX_HTTP_FIELDS {
      assert PrintFields(fields) == FieldLine(fields[0]) + PrintFields(fields[1..]);
      OccursInside(s, FieldLine(fields[0]), PrintFields(fields[1..]), start);
      FieldStep(s, start, fields[0], i);
      FieldsReadBack(s, start + |FieldLine(fields[0])|, fields[1..], i + 1);
      RoomStep(fields, i);
    } else {
      NoRoom(s, start);
    }
  }

  lemma NoRoom(s: Bytes, start: nat)
    requires start <= |s|
    ensures ParseFields(s, start, MAX_HTTP_FIELDS) == Some([])
  {
  }

  /** One blank or more. */
  predicate Gap(s: Bytes) {
    s != [] && forall k | 0 <= k < |s| :: s[k] == ' '
  }

  /** A piece and the gap after it, however wide, are taken off the line together. */
  lemma SplitPart(line: Bytes, n: nat, part: Bytes, gap: Bytes, rest: Bytes)
    requires n > 0 && Without(part, ' ') && Gap(gap) && (rest == [] || rest[0] != ' ')
    requires line == part + gap + rest
    ensures Split(line, n, ' ') == [part] + Split(rest, n - 1, ' ')
  {
    var m := |part| + |gap|;
    assert forall k | 0 <= k < |part| :: line[k] == part[k];
    assert forall k | |part| <= k < m :: line[k] == gap[k - |part|] == ' ';
    assert line[|part|] == ' ';
    assert IndexFrom(line, ' ', 0) == |part|;
    assert rest != [] ==> line[m] == rest[0];
    assert SkipChar(line, ' ', |part|) == m;
    assert line[..|part|] == part && line[m..] == rest;
  }

  /** The last piece of a line. */
  lemma SplitLast(part: Bytes, n: nat)
    requires n > 0 && Without(part, ' ') && part != []
    ensures Split(part, n, ' ') == [part]
  {
    assert IndexFrom(part, ' ', 0) == |part|;
    assert SkipChar(part, ' ', |part|) == |part|;
    assert part[..|part|] == part && part[|part|..] == [];
  }

  /** Whatever is left when only one more piece is wanted gives one piece. */
  lemma SplitSomething(rest: Bytes)
    requires rest != []
    ensures |Split(rest, 1, ' ')| == 1
  {
    var stop := IndexFrom(rest, ' ', 0);
    assert Split(rest, 1, ' ') == [rest[..stop]] + Split(rest[SkipChar(rest, ' ', stop)..], 0, ' ');
  }

  /** A line of three pieces, however far apart, splits into its verb, its path and
      something. */
  lemma GappedSplits(verb: Bytes, gap1: Bytes, path: Bytes, gap2: Bytes, version: Bytes)
    requires LineOk(verb, path, version) && Gap(gap1) && Gap(gap2)
    ensures var parts := Split(verb + gap1 + (path + gap2 + version), 3, ' ');
            |parts| == 3 && parts[0] == verb && parts[1] == path
  {
    var tail := path + gap2 + version;
    assert tail[0] == path[0];
    SplitPart(verb + gap1 + tail, 3, verb, gap1, tail);
    SplitPart(tail, 2, path, gap2, version);
    SplitSomething(version);
  }

  /** A line of fewer than three pieces, with or without blanks at its end. */
  lemma ShortSplits(verb: Bytes, gap1: Bytes, path: Bytes, gap2: Bytes)
    requires Without(verb, ' ') && Gap(gap1) && Without(path, ' ') && path != [] && Gap(gap2)
    ensures |Split([], 3, ' ')| == 0
    ensures verb != [] ==> |Split(verb, 3, ' ')| == 1
    ensures |Split(verb + gap1, 3, ' ')| == 1
    ensures |Split(verb + gap1 + path, 3, ' ')| == 2
    ensures |Split(verb + gap1 + (path + gap2), 3, ' ')| == 2
  {
    hide Split;
    assert Split([], 3, ' ') == [] by {
      NoneSplits();
    }
    if verb != [] {
      SplitLast(verb, 3);
    }
    OneSplits(verb, gap1, 3);
    SplitPart(verb + gap1 + path, 3, verb, gap1, path);
    SplitLast(path, 2);
    SplitPart(verb + gap1 + (path + gap2), 3, verb, gap1, path + gap2);
    OneSplits(path, gap2, 2);
  }

  lemma NoneSplits()
    ensures Split([], 3, ' ') == []
  {
  }

  lemma OneSplits(part: Bytes, gap: Bytes, n: nat)
    requires n > 0 && Without(part, ' ') && Gap(gap)
    ensures Split(part + gap, n, ' ') == [part]
  {
    assert part + gap + [] == part + gap;
    SplitPart(part + gap, n, part, gap, []);
    assert Split([], n - 1, ' ') == [];
  }

  /** The request line splits into its verb, its path and something. */
  lemma LineSplits(verb: Bytes, path: Bytes, version: Bytes)
    requires LineOk(verb, path, version)
    ensures var parts := Split(RequestLine(verb, path, version), 3, ' ');
            |parts| == 3 && parts[0] == verb && parts[1] == path
  {
    GappedSplits(verb, " ", path, " ", version);
    assert RequestLine(verb, path, version) == verb + " " + (path + " " + version);
  }

  lemma RequestLineOneLine(verb: Bytes, path: Bytes, version: Bytes)
    requires LineOk(verb, path, version)
    ensures OneLine(RequestLine(verb, path, version))
  {
  }

  /** A printed header, with at least one field, ends with a blank line. */
  lemma {:induction false} FieldsEnd(fields: seq<Field>)
    ensures |PrintFields(fields)| >= 2
    ensures PrintFields(fields)[|PrintFields(fields)| - 2..] == LINE_SEP
    ensures fields != [] ==> |PrintFields(fields)| >= 4 &&
                             PrintFields(fields)[|PrintFields(fields)| - 4..] == HEADER_END
  {
    if fields != [] {
      var more := PrintFields(fields[1..]);
      FieldsEnd(fields[1..]);
      assert PrintFields(fields) == FieldLine(fields[0]) + more;
      if |fields| == 1 {
        assert more == LINE_SEP;
      }
      assert PrintFields(fields)[|FieldLine(fields[0])|..] == more;
    }
  }

  /** A line, its end and printed fields at the front of a string. */
  lemma PrintedAt(s: Bytes, line: Bytes, fields: seq<Field>)
    requires OccursAt(s, line + (LINE_SEP + PrintFields(fields)), 0) && OneLine(line)
    ensures LineEnd(s, 0) == |line| && s[..|line|] == line
    ensures OccursAt(s, LINE_SEP, |line|)
    ensures OccursAt(s, PrintFields(fields), |line| + 2)
  {
    OccursInside(s, line, LINE_SEP + PrintFields(fields), 0);
    OccursInside(s, LINE_SEP, PrintFields(fields), |line|);
    ByteAt(s, LINE_SEP, |line|, 0);
    forall k | 0 <= k < |line| ensures !IsLineEnd(s[k]) {
      ByteAt(s, line, 0, k);
    }
  }

  /** After the request line, white space ends where the first field begins. */
  lemma FieldsBegin(s: Bytes, end: nat, fields: seq<Field>)
    requires OccursAt(s, LINE_SEP, end) && OccursAt(s, PrintFields(fields), end + 2)
    requires fields != [] && FieldsOk(fields)
    ensures SkipSpaces(s, end) == end + 2
  {
    ByteAt(s, LINE_SEP, end, 0);
    ByteAt(s, LINE_SEP, end, 1);
    ByteAt(s, PrintFields(fields), end + 2, 0);
    assert PrintFields(fields)[0] == FieldLine(fields[0])[0];
  }

  /** Parsing any line before printed fields, whatever bytes follow: its pieces
      decide between a header with these fields, the first 64 of them, and none. */
  lemma LineThenParse(line: Bytes, fields: seq<Field>, rest: Bytes)
    requires OneLine(line) && FieldsOk(fields) && fields != []
    ensures var parts := Split(line, 3, ' ');
            Parse(line + (LINE_SEP + PrintFields(fields)) + rest) ==
              if |parts| == 3 then Some(Header(parts[0], parts[1], FirstFields(fields))) else None
  {
    hide ParseFields, Split, PrintFields, LineEnd, SkipSpaces, FieldOk;
    var text := line + (LINE_SEP + PrintFields(fields));
    var s := text + rest;
    assert s[0..|text|] == text;
    PrintedAt(s, line, fields);
    FieldsBegin(s, |line|, fields);
    FieldsReadBack(s, |line| + 2, fields, 0);
    HeaderComplete(s, |line| + 2, fields);
  }

  /** Parsing a printed header, whatever bytes follow it, gives back its verb,
      its path and its fields in order, the first 64 of them. */
  lemma PrintThenParse(h: Header, version: Bytes, rest: Bytes)
    requires LineOk(h.verb, h.path, version) && FieldsOk(h.fields) && h.fields != []
    ensures Parse(Print(h, version) + rest) == Some(h.(fields := FirstFields(h.fields)))
  {
    hide Parse, Split, PrintFields, LineOk, FieldsOk, RequestLine;
    var line := RequestLine(h.verb, h.path, version);
    RequestLineOneLine(h.verb, h.path, version);
    AppendAssociates(line, LINE_SEP, PrintFields(h.fields));
    LineThenParse(line, h.fields, rest);
    LineSplits(h.verb, h.path, version);
  }

  /** The width of the gaps in the request line makes no difference. */
  lemma GapsIgnored(h: Header, version: Bytes, gap1: Bytes, gap2: Bytes, rest: Bytes)
    requires LineOk(h.verb, h.path, version) && FieldsOk(h.fields) && h.fields != [] && Gap(gap1) && Gap(gap2)
    ensures var line := h.verb + gap1 + (h.path + gap2 + version);
            Parse(line + (LINE_SEP + PrintFields(h.fields)) + rest) == Some(h.(fields := FirstFields(h.fields)))
  {
    hide Parse, Split, PrintFields, FieldsOk;
    var line := h.verb + gap1 + (h.path + gap2 + version);
    assert OneLine(line);
    LineThenParse(line, h.fields, rest);
    GappedSplits(h.verb, gap1, h.path, gap2, version);
  }

  /** A request line of fewer than three pieces is refused, whatever follows it. */
  lemma ShortRefused(verb: Bytes, gap1: Bytes, path: Bytes, gap2: Bytes, fields: seq<Field>, rest: Bytes)
    requires OneLine(verb) && Without(verb, ' ') && OneLine(path) && Without(path, ' ') && path != []
    requires Gap(gap1) && Gap(gap2) && FieldsOk(fields) && fields != []
    ensures var text := LINE_SEP + PrintFields(fields);
            && Parse([] + text + rest) == None
            && (verb != [] ==> Parse(verb + text + rest) == None)
            && Parse(verb + gap1 + text + rest) == None
            && Parse(verb + gap1 + path + text + rest) == None
            && Parse(verb + gap1 + (path + gap2) + text + rest) == None
  {
    hide Parse, Split, PrintFields, FieldsOk;
    ShortSplits(verb, gap1, path, gap2);
    LineThenParse([], fields, rest);
    LineThenParse(verb, fields, rest);
    LineThenParse(verb + gap1, fields, rest);
    LineThenParse(verb + gap1 + path, fields, rest);
    LineThenParse(verb + gap1 + (path + gap2), fields, rest);
  }

  lemma BareLineFound(s: Bytes, start: nat, f: Field)
    requires FieldOk(f) && (f.value != [] ==> f.value[|f.value| - 1] != '\r')
    requires OccursAt(s, f.name + ":" + f.value + "\n", start)
    ensures var colon, feed := start + |f.name|, start + |f.name| + 1 + |f.value|;
            && feed < |s|
            && IndexFrom(s, '\n', start) == feed
            && TrimEnd(s, start, feed) == feed
            && IndexFrom(s, ':', start) == colon
            && s[start..colon] == f.name && FieldValue(s, colon, feed) == f.value
  {
    var colon, feed := start + |f.name|, start + |f.name| + 1 + |f.value|;
    FieldAt(s, start, f, "\n");
    SliceAt(s, "\n", feed);
    hide OccursAt, FieldOk;
    assert s[feed] == s[feed + 0] == '\n';
    if f.value != [] {
      assert s[feed - 1] == s[colon + 1..feed][|f.value| - 1];
    }
  }

  /** A field line may end with a bare line feed. */
  lemma BareFieldStep(s: Bytes, start: nat, f: Field, i: nat)
    requires FieldOk(f) && (f.value != [] ==> f.value[|f.value| - 1] != '\r') && i < MAX_HTTP_FIELDS
    requires OccursAt(s, f.name + ":" + f.value + "\n", start)
    ensures start + |f.name| + |f.value| + 2 <= |s|
    ensures ParseFields(s, start, i) == Prepend([f], ParseFields(s, start + |f.name| + |f.value| + 2, i + 1))
  {
    hide FieldOk, OccursAt, IndexFrom, TrimEnd, FieldValue;
    BareLineFound(s, start, f);
  }

  lemma HeaderComplete(s: Bytes, start: nat, fields: seq<Field>)
    requires OccursAt(s, PrintFields(fields), start) && fields != []
    ensures |PrintFields(fields)| >= 4 && OccursAt(s, HEADER_END, start + |PrintFields(fields)| - 4)
    ensures Find(s, HEADER_END, 0).Some?
  {
    FieldsEnd(fields);
    var text := PrintFields(fields);
    assert text == text[..|text| - 4] + HEADER_END;
    OccursInside(s, text[..|text| - 4], HEADER_END, start);
  }

  lemma BodyLooksLikeFields(line: Bytes)
    ensures "A:b\r\n\r\n" == PrintFields([Field("A", "b")])
    ensures line + LINE_SEP + PrintFields([]) + "A:b\r\n\r\n" == line + (HEADER_END + "A:b\r\n\r\n")
  {
    assert PrintFields([Field("A", "b")]) == FieldLine(Field("A", "b")) + PrintFields([Field("A", "b")][1..]);
  }

  /** With no field at all, the white space after the request line swallows the
      blank line, and the body is read as the fields. */
  lemma NoFieldsReadsBody(verb: Bytes, path: Bytes, version: Bytes)
    requires LineOk(verb, path, version)
    ensures Parse(Print(Header(verb, path, []), version) + "A:b\r\n\r\n") ==
              Some(Header(verb, path, [Field("A", "b")]))
  {
    hide ParseFields, Split, LineOk, LineEnd, SkipSpaces, Find, RequestLine, PrintFields;
    var body := "A:b\r\n\r\n";
    var line := RequestLine(verb, path, version);
    var h := Header(verb, path, []);
    var s := Print(h, version) + body;
    assert s[0..|Print(h, version)|] == Print(h, version);
    RequestLineOneLine(verb, path, version);
    AppendAssociates(line, LINE_SEP, PrintFields([]));
    PrintedAt(s, line, []);
    BodyLooksLikeFields(line);
    assert s[0..|s|] == s;
    OccursInside(s, line, HEADER_END + body, 0);
    OccursInside(s, HEADER_END, body, |line|);
    BlankLineSkipped(s, |line|, body);
    FieldsReadBack(s, |line| + 4, [Field("A", "b")], 0);
    LineSplits(verb, path, version);
  }

  lemma BlankLineSkipped(s: Bytes, end: nat, body: Bytes)
    requires OccursAt(s, HEADER_END, end) && OccursAt(s, body, end + 4) && body != [] && !IsSpace(body[0])
    ensures SkipSpaces(s, end) == end + 4 && Find(s, HEADER_END, 0).Some?
  {
    forall k | end <= k < end + 4 ensures IsSpace(s[k]) {
      ByteAt(s, HEADER_END, end, k - end);
    }
    ByteAt(s, body, end + 4, 0);
  }

  /** Printing then parsing is the identity, whatever follows, exactly for
      headers of 1 to 64 fields. */
  lemma RoundTripExact(h: Header, version: Bytes)
    requires LineOk(h.verb, h.path, version) && FieldsOk(h.fields)
    ensures (forall rest :: Parse(Print(h, version) + rest) == Some(h)) <==> 1 <= |h.fields| <= MAX_HTTP_FIELDS
  {
    hide Parse, Print, LineOk, FieldsOk;
    if h.fields == [] {
      NoFieldsReadsBody(h.verb, h.path, version);
      assert Parse(Print(h, version) + "A:b\r\n\r\n") != Some(h);
    } else {
      forall rest ensures Parse(Print(h, version) + rest) == Some(h.(fields := FirstFields(h.fields))) {
        PrintThenParse(h, version, rest);
      }
      assert Parse(Print(h, version) + []) == Some(h.(fields := FirstFields(h.fields)));
    }
  }

  // ----- the loops of http.c -----

  /** `strstr` from index `from` */
  method StrStr(s: Bytes, pattern: Bytes, from: nat) returns (r: Option<nat>)
    requires from <= |s|
    ensures r == Find(s, pattern, from)
  {
    var i := from;
    while i <= |s|
      invariant from <= i <= |s| + 1
      invariant forall k | from <= k < i :: !OccursAt(s, pattern, k)
    {
      if OccursAt(s, pattern, i) {
        return Some(i);
      }
      i := i + 1;
    }
    r := None;
  }

  /** `strstrany` for the two end-of-line bytes; the source runs on when there
      is none, which its caller excludes. */
  method StrStrAny(s: Bytes, from: nat) returns (i: nat)
    requires from <= |s| && exists k | from <= k < |s| :: IsLineEnd(s[k])
    ensures i == LineEnd(s, from) && i < |s|
  {
    i := from;
    while !IsLineEnd(s[i])
      invariant from <= i < |s| && forall k | from <= k < i :: !IsLineEnd(s[k])
      invariant exists k | i <= k < |s| :: IsLineEnd(s[k])
      decreases |s| - i
    {
      i := i + 1;
    }
  }

  /** The inner loops of `strsplit`: the end of the piece at `str`, and the
      start of the next one. */
  method NextPiece(s: Bytes, str: nat, end: nat, delim: char) returns (stop: nat, next: nat)
    requires str < end <= |s|
    ensures str <= stop <= next <= end
    ensures stop - str == IndexFrom(s[str..end], delim, 0)
    ensures next - str == SkipChar(s[str..end], delim, stop - str)
  {
    ghost var line := s[str..end];
    assert forall k | 0 <= k < |line| :: line[k] == s[str + k];
    stop := str;
    while stop != end && s[stop] != delim
      invariant str <= stop <= end && forall k | 0 <= k < stop - str :: line[k] != delim
    {
      stop := stop + 1;
    }
    next := stop;
    while next != end && s[next] == delim
      invariant stop <= next <= end && forall k | stop - str <= k < next - str :: line[k] == delim
    {
      next := next + 1;
    }
  }

  /** `parts` followed by the split of `rest` is the split of `line`. */
  ghost predicate Splitting(line: Bytes, n: nat, delim: char, parts: seq<Bytes>, rest: Bytes) {
    |parts| <= n && parts + Split(rest, n - |parts|, delim) == Split(line, n, delim)
  }

  lemma SplittingStarts(line: Bytes, n: nat, delim: char)
    ensures Splitting(line, n, delim, [], line)
  {
    assert [] + Split(line, n, delim) == Split(line, n, delim);
  }

  lemma SplittingGoesOn(line: Bytes, n: nat, delim: char, parts: seq<Bytes>, rest: Bytes, stop: nat, next: nat)
    requires Splitting(line, n, delim, parts, rest) && rest != [] && |parts| < n
    requires stop == IndexFrom(rest, delim, 0) && next == SkipChar(rest, delim, stop)
    ensures Splitting(line, n, delim, parts + [rest[..stop]], rest[next..])
  {
    AppendAssociates(parts, [rest[..stop]], Split(rest[next..], n - |parts| - 1, delim));
  }

  lemma SplittingEnds(line: Bytes, n: nat, delim: char, parts: seq<Bytes>, rest: Bytes)
    requires Splitting(line, n, delim, parts, rest) && (rest == [] || |parts| == n)
    ensures parts == Split(line, n, delim)
  {
    assert parts + [] == parts;
  }

  lemma Slices(s: Bytes, str: nat, stop: nat, next: nat, end: nat)
    requires str <= stop <= next <= end <= |s|
    ensures s[str..end][..stop - str] == s[str..stop] && s[str..end][next - str..] == s[next..end]
    ensures s[0..end] == s[..end]
  {
  }

  /** `strsplit` on the bytes before index `end` */
  method StrSplit(s: Bytes, end: nat, n: nat, delim: char) returns (parts: seq<Bytes>)
    requires end <= |s|
    ensures parts == Split(s[..end], n, delim)
  {
    hide IndexFrom, SkipChar, Split, Splitting;
    ghost var line := s[..end];
    Slices(s, 0, 0, 0, end);
    SplittingStarts(line, n, delim);
    parts := [];
    var str := 0;
    while str != end && |parts| != n
      invariant str <= end && |parts| <= n
      invariant Splitting(line, n, delim, parts, s[str..end])
      decreases n - |parts|
    {
      var stop, next := NextPiece(s, str, end, delim);
      SplittingGoesOn(line, n, delim, parts, s[str..end], stop - str, next - str);
      Slices(s, str, stop, next, end);
      parts := parts + [s[str..stop]];
      str := next;
    }
    SplittingEnds(line, n, delim, parts, s[str..end]);
  }

  /** Fields read so far and what is still to come. */
  ghost predicate Reading(s: Bytes, start: nat, fields: seq<Field>, str: nat, i: nat)
    requires start <= |s|
  {
    str <= |s| && i <= MAX_HTTP_FIELDS && Prepend(fields, ParseFields(s, str, i)) == ParseFields(s, start, 0)
  }

  lemma ReadingStarts(s: Bytes, start: nat)
    requires start <= |s|
    ensures Reading(s, start, [], start, 0)
  {
    var all := ParseFields(s, start, 0);
    if all.Some? {
      assert [] + all.value == all.value;
    }
  }

  lemma ReadingGoesOn(s: Bytes, start: nat, fields: seq<Field>, str: nat, i: nat, f: Field, feed: nat)
    requires start <= |s| && feed < |s| && i < MAX_HTTP_FIELDS && Reading(s, start, fields, str, i)
    requires ParseFields(s, str, i) == Prepend([f], ParseFields(s, feed + 1, i + 1))
    ensures Reading(s, start, fields + [f], feed + 1, i + 1)
  {
    var more := ParseFields(s, feed + 1, i + 1);
    if more.Some? {
      AppendAssociates(fields, [f], more.value);
    }
  }

  lemma ReadingEnds(s: Bytes, start: nat, fields: seq<Field>, str: nat, i: nat)
    requires start <= |s| && Reading(s, start, fields, str, i)
    ensures ParseFields(s, str, i) == Some([]) ==> ParseFields(s, start, 0) == Some(fields)
    ensures ParseFields(s, str, i) == None ==> ParseFields(s, start, 0) == None
  {
    assert fields + [] == fields;
  }

  /** One turn of the field loop, told apart by what it finds. */
  lemma FieldCases(s: Bytes, str: nat, i: nat)
    requires str <= |s| && i <= MAX_HTTP_FIELDS
    ensures i == MAX_HTTP_FIELDS ==> ParseFields(s, str, i) == Some([])
    ensures i < MAX_HTTP_FIELDS ==>
              var feed, colon := IndexFrom(s, '\n', str), IndexFrom(s, ':', str);
              && (feed == |s| ==> ParseFields(s, str, i) == None)
              && (feed < |s| ==>
                   var stop := TrimEnd(s, str, feed);
                   && (stop == str ==> ParseFields(s, str, i) == Some([]))
                   && (stop != str && colon == |s| ==> ParseFields(s, str, i) == None)
                   && (stop != str && colon < |s| ==>
                        ParseFields(s, str, i) == Prepend([Field(s[str..colon], FieldValue(s, colon, stop))],
                                                          ParseFields(s, feed + 1, i + 1))))
  {
  }

  /** The loop over the header fields. */
  method ReadFields(s: Bytes, start: nat) returns (r: Option<seq<Field>>)
    requires start <= |s|
    ensures r == ParseFields(s, start, 0)
  {
    hide IndexFrom, TrimEnd, FieldValue, Prepend, ParseFields, Reading;
    var fields := [];
    var str: nat, i: nat := start, 0;
    ReadingStarts(s, start);
    while i < MAX_HTTP_FIELDS
      invariant i <= MAX_HTTP_FIELDS && str <= |s| && Reading(s, start, fields, str, i)
    {
      FieldCases(s, str, i);
      ReadingEnds(s, start, fields, str, i);
      var feed := StrChr(s, '\n', str);
      if feed == |s| {
        return None;
      }
      var stop := TrimEnd(s, str, feed);
      if stop == str {
        return Some(fields);
      }
      var colon := StrChr(s, ':', str);
      if colon == |s| {
        return None;
      }
      var field := Field(s[str..colon], FieldValue(s, colon, stop));
      ReadingGoesOn(s, start, fields, str, i, field, feed);
      fields := fields + [field];
      str, i := feed + 1, i + 1;
    }
    FieldCases(s, str, i);
    ReadingEnds(s, start, fields, str, i);
    r := Some(fields);
  }

  /** `strstr` for a single byte; the length if there is none */
  method StrChr(s: Bytes, c: char, from: nat) returns (i: nat)
    requires from <= |s|
    ensures i == IndexFrom(s, c, from)
  {
    i := from;
    while i < |s| && s[i] != c
      invariant from <= i <= |s| && forall k | from <= k < i :: s[k] != c
    {
      i := i + 1;
    }
  }

  /** A complete header holds an end-of-line byte. */
  lemma CompleteHasLineEnd(s: Bytes)
    requires Find(s, HEADER_END, 0).Some? || Find(s, "\n\n", 0).Some?
    ensures exists k | 0 <= k < |s| :: IsLineEnd(s[k])
  {
    if Find(s, HEADER_END, 0).Some? {
      ByteAt(s, HEADER_END, Find(s, HEADER_END, 0).value, 0);
    } else {
      ByteAt(s, "\n\n", Find(s, "\n\n", 0).value, 0);
    }
  }

  /** `http_parse` */
  method ParseHeader(s: Bytes) returns (header: Option<Header>)
    ensures header == Parse(s)
  {
    hide ParseFields, Split;
    var crlf := StrStr(s, HEADER_END, 0);
    var lf := StrStr(s, "\n\n", 0);
    if crlf.None? && lf.None? {
      return None;
    }
    CompleteHasLineEnd(s);
    var end := StrStrAny(s, 0);
    var parts := StrSplit(s, end, 3, ' ');
    if |parts| != 3 {
      return None;
    }
    var str := end;
    while str < |s| && IsSpace(s[str])
      invariant end <= str <= |s| && forall k | end <= k < str :: IsSpace(s[k])
    {
      str := str + 1;
    }
    var fields := ReadFields(s, str);
    header := if fields.None? then None else Some(Header(parts[0], parts[1], fields.value));
  }

  /** `http_get_field` finds the first field with exactly this name. */
  method LookUpField(fields: seq<Field>, name: Bytes) returns (value: Option<Bytes>)
    ensures value == GetField(fields, name)
    ensures value.None? <==> forall k | 0 <= k < |fields| :: fields[k].name != name
    ensures value.Some? ==> exists k | 0 <= k < |fields| ::
              fields[k] == Field(name, value.value) && forall j | 0 <= j < k :: fields[j].name != name
  {
    var i := 0;
    while i < |fields|
      invariant i <= |fields| && forall k | 0 <= k < i :: fields[k].name != name
      invariant GetField(fields[i..], name) == GetField(fields, name)
    {
      if fields[i].name == name {
        return Some(fields[i].value);
      }
      assert fields[i..][1..] == fields[i + 1..];
      i := i + 1;
    }
    value := None;
  }
}
