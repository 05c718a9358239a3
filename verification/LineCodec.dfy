/**
 The JSON-RPC line codec (termior-agent-host transport.rs, `JsonRpcLineCodec` and the framing of `send`).

 Parsing one line is a given function.  A push drains the complete lines of the buffer; the rest waits.
 */
module LineCodecs {
  import opened JsonValues

  type Byte = b: int | 0 <= b < 256

  const NEWLINE: Byte := 10
  const RETURN: Byte := 13

  type Parser = seq<Byte> -> Option<Json>

  predicate IsAsciiWhitespace(b: Byte) {
    b == 32 || b == 9 || b == 10 || b == 12 || b == 13
  }

  predicate Blank(line: seq<Byte>) {
    forall b :: b in line ==> IsAsciiWhitespace(b)
  }

  /** The line without one trailing carriage return. */
  function Chomp(line: seq<Byte>): seq<Byte> {
    if |line| > 0 && line[|line| - 1] == RETURN then line[..|line| - 1] else line
  }

  predicate NoNewline(bytes: seq<Byte>) {
    forall i :: 0 <= i < |bytes| ==> bytes[i] != NEWLINE
  }

  /** The position of the first newline, or the length. */
  function NewlineAt(buffer: seq<Byte>): (r: nat)
    ensures r <= |buffer| && (forall i :: 0 <= i < r ==> buffer[i] != NEWLINE)
    ensures r < |buffer| ==> buffer[r] == NEWLINE
  {
    if |buffer| == 0 || buffer[0] == NEWLINE then 0 else 1 + NewlineAt(buffer[1..])
  }

  // ---- the framing, without the codec ----

  /** The complete lines of a buffer. */
  function Lines(buffer: seq<Byte>): seq<seq<Byte>>
    decreases |buffer|
  {
    var end := NewlineAt(buffer);
    if end == |buffer| then [] else [buffer[..end]] + Lines(buffer[end + 1..])
  }

  /** What follows the last newline. */
  function Rest(buffer: seq<Byte>): seq<Byte>
    decreases |buffer|
  {
    var end := NewlineAt(buffer);
    if end == |buffer| then buffer else Rest(buffer[end + 1..])
  }

  predicate Readable(parse: Parser, line: seq<Byte>) {
    Blank(Chomp(line)) || parse(Chomp(line)).Some?
  }

  predicate AllReadable(parse: Parser, lines: seq<seq<Byte>>) {
    forall i :: 0 <= i < |lines| ==> Readable(parse, lines[i])
  }

  /** What a push leaves in the buffer: it drains the complete lines up to and with the first bad one. */
  function Drained(parse: Parser, buffer: seq<Byte>): seq<Byte>
    decreases |buffer|
  {
    var end := NewlineAt(buffer);
    if end == |buffer| then buffer
    else if !Readable(parse, buffer[..end]) then buffer[end + 1..]
    else Drained(parse, buffer[end + 1..])
  }

  function ValueOf(parse: Parser, line: seq<Byte>): seq<Json>
    requires Readable(parse, line)
  {
    if Blank(Chomp(line)) then [] else [parse(Chomp(line)).value]
  }

  /** The values of the lines that are not blank. */
  function Values(parse: Parser, lines: seq<seq<Byte>>): seq<Json>
    requires AllReadable(parse, lines)
  {
    if |lines| == 0 then [] else ValueOf(parse, lines[0]) + Values(parse, lines[1..])
  }

  lemma NewlineAtUnique(buffer: seq<Byte>, n: nat)
    requires n <= |buffer| && (forall i :: 0 <= i < n ==> buffer[i] != NEWLINE)
    requires n < |buffer| ==> buffer[n] == NEWLINE
    ensures NewlineAt(buffer) == n
  {
  }

  lemma {:induction false} RestHasNoNewline(buffer: seq<Byte>)
    ensures NoNewline(Rest(buffer))
    decreases |buffer|
  {
    var end := NewlineAt(buffer);
    if end < |buffer| {
      RestHasNoNewline(buffer[end + 1..]);
    }
  }

  function Framed(line: seq<Byte>): seq<Byte> {
    line + [NEWLINE]
  }

  lemma FirstLine(buffer: seq<Byte>, n: nat)
    requires n < |buffer| && buffer[n] == NEWLINE && NoNewline(buffer[..n])
    ensures Lines(buffer) == [buffer[..n]] + Lines(buffer[n + 1..]) && Rest(buffer) == Rest(buffer[n + 1..])
  {
    assert forall i :: 0 <= i < n ==> buffer[i] == buffer[..n][i];
    NewlineAtUnique(buffer, n);
  }

  /** Cutting a byte stream anywhere cuts its lines accordingly. */
  lemma {:induction false} FramingSplits(a: seq<Byte>, b: seq<Byte>)
    ensures Lines(a + b) == Lines(a) + Lines(Rest(a) + b)
    ensures Rest(a + b) == Rest(Rest(a) + b)
    decreases |a|
  {
    var end := NewlineAt(a);
    if end == |a| {
      assert Rest(a) == a && Lines(a) == [];
    } else {
      var line, tail := a[..end], a[end + 1..];
      FirstLine(a, end);
      CutLater(a, b, end);
      FirstLine(a + b, end);
      FramingSplits(tail, b);
      Associative([line], Lines(tail), Lines(Rest(tail) + b));
    }
  }

  lemma CutLater(a: seq<Byte>, b: seq<Byte>, end: nat)
    requires end < |a|
    ensures (a + b)[end] == a[end] && (a + b)[..end] == a[..end] && (a + b)[end + 1..] == a[end + 1..] + b
  {
  }

  lemma Associative<T>(a: seq<T>, b: seq<T>, c: seq<T>)
    ensures a + b + c == a + (b + c)
  {
  }

  lemma ReadableAppend(parse: Parser, a: seq<seq<Byte>>, b: seq<seq<Byte>>)
    ensures AllReadable(parse, a + b) <==> AllReadable(parse, a) && AllReadable(parse, b)
  {
    if AllReadable(parse, a + b) {
      forall i | 0 <= i < |a| ensures Readable(parse, a[i]) {
        assert (a + b)[i] == a[i];
      }
      forall i | 0 <= i < |b| ensures Readable(parse, b[i]) {
        assert (a + b)[|a| + i] == b[i];
      }
    }
  }

  lemma {:induction false} ValuesAppend(parse: Parser, a: seq<seq<Byte>>, b: seq<seq<Byte>>)
    requires AllReadable(parse, a) && AllReadable(parse, b)
    ensures AllReadable(parse, a + b) && Values(parse, a + b) == Values(parse, a) + Values(parse, b)
  {
    ReadableAppend(parse, a, b);
    if |a| == 0 {
      assert a + b == b;
    } else {
      var first, tail := a[0], a[1..];
      assert (a + b)[0] == first && (a + b)[1..] == tail + b;
      ValuesAppend(parse, tail, b);
      Associative(ValueOf(parse, first), Values(parse, tail), Values(parse, b));
    }
  }

  /** What a push over the buffer returns, and what it keeps. */
  ghost predicate Pushed(parse: Parser, buffer: seq<Byte>, messages: Option<seq<Json>>, kept: seq<Byte>) {
    && (messages.Some? <==> AllReadable(parse, Lines(buffer)))
    && (messages.Some? ==> messages.value == Values(parse, Lines(buffer)) && kept == Rest(buffer))
    && (messages.None? ==> KeepsAfterBad(parse, buffer, kept))
    && kept == Drained(parse, buffer)
  }

  // ---- the codec ----

  class JsonRpcLineCodec {
    const parse: Parser
    var pending: seq<Byte>

    constructor (parse: Parser)
      ensures this.parse == parse && pending == []
    {
      this.parse := parse;
      pending := [];
    }

    /**
     Succeeds exactly when every complete line can be read, and then returns their values and keeps the rest.  At the
     first bad line it stops: the values before it are lost with this push, the bytes after it stay pending.
     */
    method Push(bytes: seq<Byte>) returns (messages: Option<seq<Json>>)
      modifies this
      ensures Pushed(parse, old(pending) + bytes, messages, pending)
    {
      pending := pending + bytes;
      ghost var buffer := pending;
      var values := [];
      ghost var k: nat := 0;
      var end := NewlineAt(pending);
      NothingRead(parse, buffer);
      while end < |pending|
        invariant end == NewlineAt(pending)
        invariant ReadSoFar(parse, buffer, k, values, pending)
        decreases |pending|
      {
        var line := Chomp(pending[..end]);
        LineAt(parse, buffer, k, values, pending);
        pending := pending[end + 1..];
        if !Blank(line) {
          var value := parse(line);
          if value.None? {
            return None;
          }
          values := values + [value.value];
        }
        end, k := NewlineAt(pending), k + 1;
      }
      AllRead(parse, buffer, k, values, pending);
      return Some(values);
    }
  }

  /** `k` lines of the buffer have been read to these values, and this is what follows them. */
  ghost predicate ReadSoFar(parse: Parser, buffer: seq<Byte>, k: nat, values: seq<Json>, pending: seq<Byte>) {
    && k <= |Lines(buffer)| && Lines(pending) == Lines(buffer)[k..] && Rest(pending) == Rest(buffer)
    && AllReadable(parse, Lines(buffer)[..k]) && values == Values(parse, Lines(buffer)[..k])
    && Drained(parse, pending) == Drained(parse, buffer)
  }

  lemma NothingRead(parse: Parser, buffer: seq<Byte>)
    ensures ReadSoFar(parse, buffer, 0, [], buffer)
  {
  }

  /** The next line either is read, extending the values, or is the first bad one. */
  lemma LineAt(parse: Parser, buffer: seq<Byte>, k: nat, values: seq<Json>, pending: seq<Byte>)
    requires ReadSoFar(parse, buffer, k, values, pending) && NewlineAt(pending) < |pending|
    ensures var line, next := pending[..NewlineAt(pending)], pending[NewlineAt(pending) + 1..];
            if Readable(parse, line) then ReadSoFar(parse, buffer, k + 1, values + ValueOf(parse, line), next)
            else Pushed(parse, buffer, None, next)
  {
    var end := NewlineAt(pending);
    var lines, line, next := Lines(buffer), pending[..end], pending[end + 1..];
    assert Lines(pending) == [line] + Lines(next);
    assert lines[k] == lines[k..][0] == line;
    assert Lines(next) == lines[k..][1..] == lines[k + 1..];
    if Readable(parse, line) {
      ReadOneMore(parse, lines, k);
    } else {
      assert BadLineAt(parse, buffer, next, k);
    }
  }

  lemma ReadOneMore(parse: Parser, lines: seq<seq<Byte>>, k: nat)
    requires k < |lines| && AllReadable(parse, lines[..k]) && Readable(parse, lines[k])
    ensures AllReadable(parse, lines[..k + 1])
    ensures Values(parse, lines[..k + 1]) == Values(parse, lines[..k]) + ValueOf(parse, lines[k])
  {
    assert lines[..k + 1] == lines[..k] + [lines[k]];
    ValuesAppend(parse, lines[..k], [lines[k]]);
    assert Values(parse, [lines[k]]) == ValueOf(parse, lines[k]);
  }

  lemma AllRead(parse: Parser, buffer: seq<Byte>, k: nat, values: seq<Json>, pending: seq<Byte>)
    requires ReadSoFar(parse, buffer, k, values, pending) && NewlineAt(pending) == |pending|
    ensures Pushed(parse, buffer, Some(values), pending)
  {
    assert Lines(buffer)[..k] == Lines(buffer);
  }

  /** Line `k` is the first bad one, and exactly what follows it is kept. */
  ghost predicate BadLineAt(parse: Parser, buffer: seq<Byte>, kept: seq<Byte>, k: nat) {
    && k < |Lines(buffer)| && !Readable(parse, Lines(buffer)[k]) && AllReadable(parse, Lines(buffer)[..k])
    && Lines(kept) == Lines(buffer)[k + 1..] && Rest(kept) == Rest(buffer)
  }

  ghost predicate KeepsAfterBad(parse: Parser, buffer: seq<Byte>, kept: seq<Byte>) {
    exists k: nat :: BadLineAt(parse, buffer, kept, k)
  }

  // ---- any chunking ----

  /** What a reader has delivered after some chunks, whether a push failed and ended it, and what its codec holds. */
  datatype Session = Session(delivered: seq<Json>, failed: bool, pending: seq<Byte>)

  function PushOne(parse: Parser, s: Session, chunk: seq<Byte>): Session {
    var buffer := s.pending + chunk;
    if s.failed then s
    else if AllReadable(parse, Lines(buffer)) then
      Session(s.delivered + Values(parse, Lines(buffer)), false, Drained(parse, buffer))
    else Session(s.delivered, true, Drained(parse, buffer))
  }

  function PushAll(parse: Parser, chunks: seq<seq<Byte>>): Session {
    if |chunks| == 0 then Session([], false, [])
    else PushOne(parse, PushAll(parse, chunks[..|chunks| - 1]), chunks[|chunks| - 1])
  }

  function Joined(chunks: seq<seq<Byte>>): seq<Byte> {
    if |chunks| == 0 then [] else Joined(chunks[..|chunks| - 1]) + chunks[|chunks| - 1]
  }

  lemma {:induction false} FailureStays(parse: Parser, chunks: seq<seq<Byte>>, n: nat)
    requires n <= |chunks| && PushAll(parse, chunks[..n]).failed
    ensures PushAll(parse, chunks) == PushAll(parse, chunks[..n])
  {
    if n < |chunks| {
      assert chunks[..|chunks| - 1][..n] == chunks[..n];
      FailureStays(parse, chunks[..|chunks| - 1], n);
    } else {
      assert chunks[..n] == chunks;
    }
  }

  /** The reader thread: pushes what it reads, delivers the values of every push, and ends at the first failed one. */
  method ReadStdout(parse: Parser, chunks: seq<seq<Byte>>)
    returns (codec: JsonRpcLineCodec, delivered: seq<Json>, failed: bool)
    ensures fresh(codec) && Session(delivered, failed, codec.pending) == PushAll(parse, chunks)
  {
    codec := new JsonRpcLineCodec(parse);
    delivered, failed := [], false;
    for i := 0 to |chunks|
      invariant fresh(codec) && codec.parse == parse && !failed
      invariant Session(delivered, failed, codec.pending) == PushAll(parse, chunks[..i])
    {
      assert chunks[..i + 1][..i] == chunks[..i];
      var messages := codec.Push(chunks[i]);
      if messages.None? {
        failed := true;
        FailureStays(parse, chunks, i + 1);
        return;
      }
      delivered := delivered + messages.value;
    }
    assert chunks[..|chunks|] == chunks;
  }

  lemma {:induction false} DrainedReadable(parse: Parser, buffer: seq<Byte>)
    requires AllReadable(parse, Lines(buffer))
    ensures Drained(parse, buffer) == Rest(buffer)
    decreases |buffer|
  {
    var end := NewlineAt(buffer);
    if end < |buffer| {
      var tail := buffer[end + 1..];
      assert Lines(buffer) == [buffer[..end]] + Lines(tail);
      ReadableAppend(parse, [buffer[..end]], Lines(tail));
      assert [buffer[..end]][0] == buffer[..end];
      DrainedReadable(parse, tail);
    }
  }

  /** The first chunk whose push fails: the stream before it can be read, with it no longer. */
  ghost predicate FailsAt(parse: Parser, chunks: seq<seq<Byte>>, n: nat) {
    && n < |chunks| && AllReadable(parse, Lines(Joined(chunks[..n])))
    && !AllReadable(parse, Lines(Joined(chunks[..n + 1])))
  }

  /** What a push sees: the rest of the stream so far, with the chunk behind it. */
  lemma PushSees(parse: Parser, before: seq<Byte>, chunk: seq<Byte>)
    requires AllReadable(parse, Lines(before))
    ensures AllReadable(parse, Lines(before + chunk)) <==> AllReadable(parse, Lines(Rest(before) + chunk))
    ensures AllReadable(parse, Lines(before + chunk)) ==>
              && Values(parse, Lines(before + chunk))
                 == Values(parse, Lines(before)) + Values(parse, Lines(Rest(before) + chunk))
              && Drained(parse, Rest(before) + chunk) == Rest(before + chunk)
  {
    FramingSplits(before, chunk);
    ReadableAppend(parse, Lines(before), Lines(Rest(before) + chunk));
    if AllReadable(parse, Lines(before + chunk)) {
      ValuesAppend(parse, Lines(before), Lines(Rest(before) + chunk));
      DrainedReadable(parse, Rest(before) + chunk);
    }
  }

  /** Lines that can be read so far could be read all along. */
  lemma ReadableSoFar(parse: Parser, before: seq<Byte>, chunk: seq<Byte>)
    requires AllReadable(parse, Lines(before + chunk))
    ensures AllReadable(parse, Lines(before))
  {
    FramingSplits(before, chunk);
    ReadableAppend(parse, Lines(before), Lines(Rest(before) + chunk));
  }

  /**
   However the stream is cut into chunks, every push succeeds exactly when every complete line of the stream can be
   read, and then the delivered values and the pending bytes are those of a single push, without a newline in them.
   */
  lemma {:induction false} ChunkingIrrelevant(parse: Parser, chunks: seq<seq<Byte>>)
    ensures var s := PushAll(parse, chunks);
            && (s.failed <==> !AllReadable(parse, Lines(Joined(chunks))))
            && (!s.failed ==> && s.delivered == Values(parse, Lines(Joined(chunks)))
                              && s.pending == Rest(Joined(chunks)) && NoNewline(s.pending))
  {
    RestHasNoNewline(Joined(chunks));
    if |chunks| > 0 {
      var init, last := chunks[..|chunks| - 1], chunks[|chunks| - 1];
      ChunkingIrrelevant(parse, init);
      if AllReadable(parse, Lines(Joined(chunks))) {
        ReadableSoFar(parse, Joined(init), last);
      }
      if AllReadable(parse, Lines(Joined(init))) {
        PushSees(parse, Joined(init), last);
      }
    }
  }

  /** The session of a stream whose first failing push is that of chunk `n`. */
  ghost predicate EndsAt(parse: Parser, chunks: seq<seq<Byte>>, n: nat, s: Session) {
    && FailsAt(parse, chunks, n) && s.failed
    && s.delivered == Values(parse, Lines(Joined(chunks[..n])))
    && s.pending == Drained(parse, Rest(Joined(chunks[..n])) + chunks[n])
  }

  lemma EndsEarlier(parse: Parser, chunks: seq<seq<Byte>>, n: nat, s: Session)
    requires |chunks| > 0 && EndsAt(parse, chunks[..|chunks| - 1], n, s)
    ensures EndsAt(parse, chunks, n, s)
  {
    var init := chunks[..|chunks| - 1];
    assert init[..n] == chunks[..n] && init[..n + 1] == chunks[..n + 1] && init[n] == chunks[n];
  }

  lemma EndsNow(parse: Parser, chunks: seq<seq<Byte>>)
    requires |chunks| > 0 && AllReadable(parse, Lines(Joined(chunks[..|chunks| - 1])))
    requires !AllReadable(parse, Lines(Joined(chunks)))
    ensures EndsAt(parse, chunks, |chunks| - 1, PushAll(parse, chunks))
  {
    var n := |chunks| - 1;
    var init, last := chunks[..n], chunks[n];
    assert chunks[..n + 1] == chunks;
    ChunkingIrrelevant(parse, init);
    PushSees(parse, Joined(init), last);
    assert Joined(chunks) == Joined(init) + last;
    assert PushAll(parse, chunks) == PushOne(parse, PushAll(parse, init), last);
    assert FailsAt(parse, chunks, n);
  }

  /**
   When some line cannot be read, the reader has delivered exactly the values of the stream before the first chunk whose
   push fails: good lines of that chunk are lost even when they come before the bad one.
   */
  lemma {:induction false} FailureDelivers(parse: Parser, chunks: seq<seq<Byte>>) returns (n: nat)
    requires !AllReadable(parse, Lines(Joined(chunks)))
    ensures EndsAt(parse, chunks, n, PushAll(parse, chunks))
  {
    assert |chunks| > 0;
    var init := chunks[..|chunks| - 1];
    if AllReadable(parse, Lines(Joined(init))) {
      EndsNow(parse, chunks);
      n := |chunks| - 1;
    } else {
      n := FailureDelivers(parse, init);
      EndsEarlier(parse, chunks, n, PushAll(parse, init));
    }
  }

  /**
   The condition is needed: with a bad line behind a good one, a single push delivers nothing, while a push per line
   delivers the good value first.
   */
  lemma BadLineDiscardsEarlierValues(parse: Parser, good: seq<Byte>, bad: seq<Byte>)
    requires NoNewline(good) && NoNewline(bad)
    requires !Blank(Chomp(good)) && parse(Chomp(good)).Some? && !Readable(parse, bad)
    ensures PushAll(parse, [Framed(good) + Framed(bad)]).delivered == []
    ensures PushAll(parse, [Framed(good), Framed(bad)]).delivered == [parse(Chomp(good)).value]
  {
    GoodAlone(parse, good);
    PushTwice(parse, Framed(good), Framed(bad));
    OneLine(bad);
    EmptyFirst(Framed(bad));
    assert Lines(Framed(bad))[0] == bad;
    BadBehind(parse, good, bad);
  }

  /** A good line behind a bad one stays pending, newline and all. */
  lemma GoodLineStaysPending(parse: Parser, bad: seq<Byte>, good: seq<Byte>)
    requires NoNewline(bad) && !Readable(parse, bad)
    ensures PushAll(parse, [Framed(bad) + Framed(good)]) == Session([], true, Framed(good))
    ensures !NoNewline(Framed(good))
  {
    var both := Framed(bad) + Framed(good);
    BadFirst(parse, bad, Framed(good));
    EmptyFirst(both);
    PushOnce(parse, both);
    assert Framed(good)[|good|] == NEWLINE;
  }

  /** A bad line at the head of a buffer is all that is drained. */
  lemma BadFirst(parse: Parser, bad: seq<Byte>, rest: seq<Byte>)
    requires NoNewline(bad) && !Readable(parse, bad)
    ensures !AllReadable(parse, Lines(Framed(bad) + rest)) && Drained(parse, Framed(bad) + rest) == rest
  {
    var both := Framed(bad) + rest;
    assert both[..|bad|] == bad && both[|bad|] == NEWLINE && both[|bad| + 1..] == rest;
    FirstLine(both, |bad|);
    assert Lines(both)[0] == bad;
    NewlineAtUnique(both, |bad|);
  }

  lemma GoodAlone(parse: Parser, good: seq<Byte>)
    requires NoNewline(good) && !Blank(Chomp(good)) && parse(Chomp(good)).Some?
    ensures PushAll(parse, [Framed(good)]) == Session([parse(Chomp(good)).value], false, [])
  {
    OneLine(good);
    OneValue(parse, good);
    PushOnce(parse, Framed(good));
    EmptyFirst(Framed(good));
    DrainedReadable(parse, Framed(good));
    var none: seq<Json> := [];
    assert none + Values(parse, [good]) == [parse(Chomp(good)).value];
  }

  lemma TwoLines(first: seq<Byte>, second: seq<Byte>)
    requires NoNewline(first) && NoNewline(second)
    ensures Lines(Framed(first) + Framed(second)) == [first] + [second]
  {
    OneLine(first);
    OneLine(second);
    FramingSplits(Framed(first), Framed(second));
    EmptyFirst(Framed(second));
  }

  lemma BadBehind(parse: Parser, good: seq<Byte>, bad: seq<Byte>)
    requires NoNewline(good) && NoNewline(bad) && !Readable(parse, bad)
    ensures PushAll(parse, [Framed(good) + Framed(bad)]).delivered == []
  {
    var both := Framed(good) + Framed(bad);
    TwoLines(good, bad);
    assert Lines(both)[1] == bad;
    EmptyFirst(both);
    PushOnce(parse, both);
  }

  lemma EmptyFirst(bytes: seq<Byte>)
    ensures [] + bytes == bytes
  {
  }

  lemma PushOnce(parse: Parser, chunk: seq<Byte>)
    ensures PushAll(parse, [chunk]) == PushOne(parse, Session([], false, []), chunk)
  {
    var chunks := [chunk];
    var none: seq<seq<Byte>> := [];
    assert chunks[..0] == none;
    assert PushAll(parse, chunks[..|chunks| - 1]) == Session([], false, []);
  }

  lemma PushTwice(parse: Parser, first: seq<Byte>, second: seq<Byte>)
    ensures PushAll(parse, [first, second]) == PushOne(parse, PushAll(parse, [first]), second)
  {
    var chunks := [first, second];
    assert chunks[..1] == [first];
  }

  lemma OneValue(parse: Parser, line: seq<Byte>)
    requires !Blank(Chomp(line)) && parse(Chomp(line)).Some?
    ensures AllReadable(parse, [line]) && Values(parse, [line]) == [parse(Chomp(line)).value]
  {
    var lines := [line];
    assert lines[0] == line && |lines[1..]| == 0;
  }

  lemma OneLine(line: seq<Byte>)
    requires NoNewline(line)
    ensures Lines(Framed(line)) == [line] && Rest(Framed(line)) == []
  {
    var buffer := Framed(line);
    assert buffer[..|line|] == line;
    NewlineAtUnique(buffer, |line|);
    assert buffer[|line| + 1..] == [];
  }

  // ---- round trip ----

  /** A JSON text has no raw newline (section 7 of RFC 8259), does not end in white space, and parses back. */
  ghost predicate GoodSerializer(parse: Parser, serialize: Json -> seq<Byte>) {
    forall v :: var text := serialize(v);
      && NoNewline(text) && |text| > 0 && !IsAsciiWhitespace(text[|text| - 1])
      && parse(text) == Some(v)
  }

  /** The bytes `send` writes for each value in turn. */
  function Frames(serialize: Json -> seq<Byte>, values: seq<Json>): seq<Byte> {
    if |values| == 0 then []
    else Frames(serialize, values[..|values| - 1]) + Framed(serialize(values[|values| - 1]))
  }

  lemma FrameReads(parse: Parser, serialize: Json -> seq<Byte>, v: Json)
    requires GoodSerializer(parse, serialize)
    ensures var frame := Framed(serialize(v));
            && Rest(frame) == [] && Lines(frame) == [serialize(v)]
            && AllReadable(parse, Lines(frame)) && Values(parse, Lines(frame)) == [v]
  {
    var text := serialize(v);
    OneLine(text);
    assert Chomp(text) == text;
    assert !Blank(text) by {
      assert text[|text| - 1] in text;
    }
    OneValue(parse, text);
  }

  lemma {:induction false} FramesRead(parse: Parser, serialize: Json -> seq<Byte>, values: seq<Json>)
    requires GoodSerializer(parse, serialize)
    ensures var stream := Frames(serialize, values);
            Rest(stream) == [] && AllReadable(parse, Lines(stream)) && Values(parse, Lines(stream)) == values
  {
    if |values| > 0 {
      var init, last := values[..|values| - 1], values[|values| - 1];
      FramesRead(parse, serialize, init);
      FrameReads(parse, serialize, last);
      Appended(parse, Frames(serialize, init), Framed(serialize(last)));
      assert values == init + [last];
    }
  }

  lemma Appended(parse: Parser, before: seq<Byte>, frame: seq<Byte>)
    requires Rest(before) == [] && AllReadable(parse, Lines(before)) && AllReadable(parse, Lines(frame))
    ensures Rest(before + frame) == Rest(frame) && AllReadable(parse, Lines(before + frame))
    ensures Values(parse, Lines(before + frame)) == Values(parse, Lines(before)) + Values(parse, Lines(frame))
  {
    FramingSplits(before, frame);
    assert Rest(before) + frame == frame;
    ValuesAppend(parse, Lines(before), Lines(frame));
  }

  /** Whatever was sent is received, in order and complete, however the stream is cut on the way. */
  lemma SentIsReceived(parse: Parser, serialize: Json -> seq<Byte>, values: seq<Json>, chunks: seq<seq<Byte>>)
    requires GoodSerializer(parse, serialize) && Joined(chunks) == Frames(serialize, values)
    ensures PushAll(parse, chunks) == Session(values, false, [])
  {
    FramesRead(parse, serialize, values);
    ChunkingIrrelevant(parse, chunks);
  }
}
