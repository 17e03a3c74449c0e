/** Newline framing over a byte stream cut anywhere (distributed/replication/follower.cpp:88-120). */
module Framing {
  import opened Types
  import opened Replication
  import opened Wire

  /** The complete lines of the buffer and the unfinished rest. */
  function TakeLines(buffer: Bytes): (seq<Bytes>, Bytes)
    decreases |buffer|
  {
    match FindFrom(buffer, 0, NEWLINE)
    case None => ([], buffer)
    case Some(p) =>
      var (lines, rest) := TakeLines(buffer[p + 1..]);
      ([buffer[..p]] + lines, rest)
  }

  /** Empty lines are skipped, lines that do not parse are reported and skipped. */
  function Deliver(line: Bytes): seq<Message> {
    if line == [] || ParseMessage(line).None? then [] else [ParseMessage(line).value]
  }

  function DeliverAll(lines: seq<Bytes>): seq<Message> {
    if lines == [] then [] else DeliverAll(lines[..|lines| - 1]) + Deliver(lines[|lines| - 1])
  }

  function Concat(chunks: seq<Bytes>): Bytes {
    if chunks == [] then [] else Concat(chunks[..|chunks| - 1]) + chunks[|chunks| - 1]
  }

  /** What the shipper sends (distributed/replication/log_shipper.cpp:105-106). */
  function Stream(ms: seq<Message>): Bytes {
    if ms == [] then [] else SerializeMessage(ms[0]) + [NEWLINE] + Stream(ms[1..])
  }

  /** The lines with their newlines, and the rest. */
  function Joined(lines: seq<Bytes>, rest: Bytes): Bytes {
    if lines == [] then rest else lines[0] + [10] + Joined(lines[1..], rest)
  }

  /** Splitting loses nothing: joined by newlines the lines and the rest are the buffer, and none holds a newline. */
  lemma {:induction false} TakeLinesExactly(buffer: Bytes)
    ensures var (lines, rest) := TakeLines(buffer);
            && Joined(lines, rest) == buffer && 10 !in rest
            && forall i :: 0 <= i < |lines| ==> 10 !in lines[i]
    decreases |buffer|
  {
    hide FindFrom;
    FirstNewline(buffer);
    if FindFrom(buffer, 0, NEWLINE).Some? {
      var p := FindFrom(buffer, 0, NEWLINE).value;
      TakeLinesExactly(buffer[p + 1..]);
      assert buffer == buffer[..p] + [10] + buffer[p + 1..];
    }
  }

  lemma {:induction false} FirstNewline(buffer: Bytes)
    ensures var r := FindFrom(buffer, 0, NEWLINE);
            if r.None? then 10 !in buffer else 10 !in buffer[..r.value]
  {
    FirstFrom(buffer, 0);
  }

  lemma {:induction false} FirstFrom(buffer: Bytes, pos: nat)
    ensures var r := FindFrom(buffer, pos, NEWLINE);
            forall i :: pos <= i < (if r.Some? then r.value else |buffer|) ==> buffer[i] != 10
    decreases if pos < |buffer| then |buffer| - pos else 0
  {
    if pos < |buffer| && buffer[pos] != NEWLINE { FirstFrom(buffer, pos + 1); }
  }

  /** A line is delivered exactly if it is not empty and parses; anything else is passed over. */
  lemma {:induction false} DeliverExactly(line: Bytes, m: Message)
    ensures Deliver(line) == [m] <==> line != [] && ParseMessage(line) == Some(m)
    ensures Deliver(line) == [] <==> line == [] || ParseMessage(line) == None
  {
    hide ParseMessage;
  }

  lemma {:induction false} FindFromPrefix(a: Bytes, b: Bytes, pos: nat)
    requires FindFrom(a, pos, NEWLINE).Some?
    ensures FindFrom(a + b, pos, NEWLINE) == FindFrom(a, pos, NEWLINE)
    decreases if pos < |a| then |a| - pos else 0
  {
    if pos < |a| && a[pos] != NEWLINE { FindFromPrefix(a, b, pos + 1); }
  }

  /** Splitting a buffer early or late finds the same lines. */
  lemma {:induction false} TakeLinesConcat(a: Bytes, b: Bytes)
    ensures var (la, ra) := TakeLines(a);
            var (lb, rb) := TakeLines(ra + b);
            TakeLines(a + b) == (la + lb, rb)
    decreases |a|
  {
    hide FindFrom;
    match FindFrom(a, 0, NEWLINE)
    case None => assert [] + TakeLines(a + b).0 == TakeLines(a + b).0;
    case Some(p) =>
      FindFromPrefix(a, b, 0);
      assert (a + b)[..p] == a[..p] && (a + b)[p + 1..] == a[p + 1..] + b;
      TakeLinesConcat(a[p + 1..], b);
      var (la, ra) := TakeLines(a[p + 1..]);
      var (lb, rb) := TakeLines(ra + b);
      assert [a[..p]] + (la + lb) == [a[..p]] + la + lb;
  }

  lemma {:induction false} DeliverAllConcat(a: seq<Bytes>, b: seq<Bytes>)
    ensures DeliverAll(a + b) == DeliverAll(a) + DeliverAll(b)
  {
    hide Deliver;
    if b == [] {
      assert a + b == a;
    } else {
      var n := |b| - 1;
      assert (a + b)[..|a + b| - 1] == a + b[..n];
      DeliverAllConcat(a, b[..n]);
    }
  }

  /** One `recv`: append what arrived, then consume every complete line. */
  function Feed(delivered: seq<Message>, buffer: Bytes, chunk: Bytes): (seq<Message>, Bytes) {
    var (lines, rest) := TakeLines(buffer + chunk);
    (delivered + DeliverAll(lines), rest)
  }

  function FeedAll(chunks: seq<Bytes>): (seq<Message>, Bytes) {
    if chunks == [] then ([], [])
    else
      var (delivered, buffer) := FeedAll(chunks[..|chunks| - 1]);
      Feed(delivered, buffer, chunks[|chunks| - 1])
  }

  /** Where the stream is cut does not matter. */
  lemma {:induction false} FeedAllIsSplit(chunks: seq<Bytes>)
    ensures FeedAll(chunks) == (DeliverAll(TakeLines(Concat(chunks)).0), TakeLines(Concat(chunks)).1)
  {
    hide FindFrom, Deliver;
    if chunks != [] {
      var init, last := chunks[..|chunks| - 1], chunks[|chunks| - 1];
      FeedAllIsSplit(init);
      TakeLinesConcat(Concat(init), last);
      DeliverAllConcat(TakeLines(Concat(init)).0, TakeLines(TakeLines(Concat(init)).1 + last).0);
    }
  }

  /** `handleConnection`. */
  method HandleConnection(chunks: seq<Bytes>) returns (delivered: seq<Message>, buffer: Bytes)
    ensures (delivered, buffer) == FeedAll(chunks)
  {
    buffer, delivered := [], [];
    for i := 0 to |chunks|
      invariant (delivered, buffer) == FeedAll(chunks[..i])
    {
      assert chunks[..i + 1][..i] == chunks[..i];
      var got, rest := ConsumeLines(buffer + chunks[i]);
      delivered, buffer := delivered + got, rest;
    }
    assert chunks[..|chunks|] == chunks;
  }

  lemma {:induction false} TakeFirstLine(buffer: Bytes, p: nat)
    requires FindFrom(buffer, 0, NEWLINE) == Some(p)
    ensures TakeLines(buffer).1 == TakeLines(buffer[p + 1..]).1
    ensures DeliverAll(TakeLines(buffer).0) == Deliver(buffer[..p]) + DeliverAll(TakeLines(buffer[p + 1..]).0)
  {
    hide FindFrom, Deliver;
    var line := buffer[..p];
    DeliverAllConcat([line], TakeLines(buffer[p + 1..]).0);
    assert [line][..0] == [];
    assert DeliverAll([line]) == DeliverAll([]) + Deliver(line) == Deliver(line);
  }

  method ConsumeLines(start: Bytes) returns (delivered: seq<Message>, buffer: Bytes)
    ensures delivered == DeliverAll(TakeLines(start).0) && buffer == TakeLines(start).1
  {
    hide ParseMessage, DeliverAll, TakeLines, FindFrom;
    buffer, delivered := start, [];
    var pos := FindFrom(buffer, 0, NEWLINE);
    while pos.Some?
      invariant pos == FindFrom(buffer, 0, NEWLINE)
      invariant delivered + DeliverAll(TakeLines(buffer).0) == DeliverAll(TakeLines(start).0)
      invariant TakeLines(buffer).1 == TakeLines(start).1
      decreases |buffer|
    {
      TakeFirstLine(buffer, pos.value);
      var line := buffer[..pos.value];
      buffer := buffer[pos.value + 1..];
      if line != [] {
        var msg := Deserialize(line);
        if msg.Some? { delivered := delivered + [msg.value]; }
      }
      pos := FindFrom(buffer, 0, NEWLINE);
    }
    NoLineLeft(buffer);
  }

  lemma {:induction false} NoLineLeft(buffer: Bytes)
    requires FindFrom(buffer, 0, NEWLINE).None?
    ensures TakeLines(buffer) == ([], buffer) && DeliverAll([]) == []
  {
  }

  // ---------- no newline inside a message ----------

  ghost predicate NewlineFree(e: LogEntry) {
    NEWLINE !in e.key && NEWLINE !in e.value
  }

  lemma {:induction false} EntriesNewlineFree(es: seq<LogEntry>)
    requires forall i :: 0 <= i < |es| ==> NewlineFree(es[i])
    ensures NEWLINE !in SerializeEntries(es)
  {
    hide Digits;
    if es != [] {
      var e := es[0];
      ParseDigits(e.term);
      ParseDigits(e.index);
      ParseDigits(e.op);
      ParseDigits(|e.key|);
      ParseDigits(|e.value|);
      ParseDigits(|SerializeEntry(e)|);
      assert NEWLINE !in SerializeEntry(e);
      EntriesNewlineFree(es[1..]);
    }
  }

  lemma {:induction false} MessageNewlineFree(m: Message)
    requires forall i :: 0 <= i < |m.entries| ==> NewlineFree(m.entries[i])
    ensures NEWLINE !in SerializeMessage(m)
  {
    hide Digits, SerializeEntries;
    ParseDigits(m.term);
    ParseDigits(m.leaderCommit);
    ParseDigits(|m.entries|);
    EntriesNewlineFree(m.entries);
  }

  /** Messages the leader sends: at least one entry, fields that fit, keys and values without newlines. */
  ghost predicate Sendable(m: Message) {
    FitsMessage(m) && m.entries != [] && forall i :: 0 <= i < |m.entries| ==> NewlineFree(m.entries[i])
  }

  lemma {:induction false} StreamDelivers(ms: seq<Message>)
    requires forall i :: 0 <= i < |ms| ==> Sendable(ms[i])
    ensures DeliverAll(TakeLines(Stream(ms)).0) == ms && TakeLines(Stream(ms)).1 == []
  {
    hide ParseMessage, SerializeMessage, TakeLines, DeliverAll, FindFrom, Sendable, Deliver;
    if ms == [] {
      NothingStreamed();
    } else {
      var m := ms[0];
      var line := SerializeMessage(m);
      SendableLine(m);
      FirstOfStream(line, Stream(ms[1..]));
      var data := Stream(ms);
      assert data == line + [NEWLINE] + Stream(ms[1..]);
      TakeFirstLine(data, |line|);
      assert data[..|line|] == line && data[|line| + 1..] == Stream(ms[1..]);
      StreamDelivers(ms[1..]);
      assert ms == [m] + ms[1..];
    }
  }

  lemma {:induction false} NothingStreamed()
    ensures DeliverAll(TakeLines([]).0) == [] && TakeLines([]).1 == []
  {
  }

  lemma {:induction false} SendableLine(m: Message)
    requires Sendable(m)
    ensures NEWLINE !in SerializeMessage(m) && Deliver(SerializeMessage(m)) == [m]
  {
    hide ParseMessage, SerializeMessage, FitsMessage;
    MessageNewlineFree(m);
    LineNonEmpty(m);
    MessageRoundTrip(m);
  }

  lemma {:induction false} FirstOfStream(line: Bytes, rest: Bytes)
    requires NEWLINE !in line
    ensures FindFrom(line + [NEWLINE] + rest, 0, NEWLINE) == Some(|line|)
  {
    hide FindFrom;
    var data := line + [NEWLINE] + rest;
    assert forall i :: 0 <= i < |line| ==> data[i] == line[i];
    FindFromAt(data, 0, NEWLINE, |line|);
  }

  lemma {:induction false} LineNonEmpty(m: Message)
    ensures SerializeMessage(m) != []
  {
    hide Digits, SerializeEntries;
  }

  /** However the stream is cut into received chunks, the follower gets exactly the messages sent. */
  lemma {:induction false} ChunkedStreamDelivers(ms: seq<Message>, chunks: seq<Bytes>)
    requires forall i :: 0 <= i < |ms| ==> Sendable(ms[i])
    requires Concat(chunks) == Stream(ms)
    ensures FeedAll(chunks) == (ms, [])
  {
    StreamDelivers(ms);
    FeedAllIsSplit(chunks);
  }
}
