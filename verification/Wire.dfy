/** The text codec of replication messages (distributed/replication/log_entry.cpp). */
module Wire {
  import opened Types
  import opened Encoding
  import opened Replication

  const PIPE: byte := 124
  const NEWLINE: byte := 10

  // ---------- decimal numbers ----------

  predicate IsDigit(b: byte) {
    48 <= b <= 57
  }

  predicate IsSpace(b: byte) {
    b == 32 || 9 <= b <= 13
  }

  /** `std::ostream << uint64_t`. */
  function Digits(n: nat): Bytes {
    if n < 10 then [(48 + n) as byte] else Digits(n / 10) + [(48 + n % 10) as byte]
  }

  /** The longest prefix of digits. */
  function DigitPrefix(s: Bytes): (r: Bytes)
    ensures forall i :: 0 <= i < |r| ==> IsDigit(r[i])
  {
    if s != [] && IsDigit(s[0]) then [s[0]] + DigitPrefix(s[1..]) else []
  }

  function ValueOf(s: Bytes): nat
    requires forall i :: 0 <= i < |s| ==> IsDigit(s[i])
  {
    if s == [] then 0
    else
      assert IsDigit(s[|s| - 1]);
      ValueOf(s[..|s| - 1]) * 10 + (s[|s| - 1] as int - 48)
  }

  function SkipSpaces(s: Bytes): Bytes {
    if s != [] && IsSpace(s[0]) then SkipSpaces(s[1..]) else s
  }

  /** Sign and magnitude as `strtol` and `strtoull` read them; trailing text is ignored. */
  function ParseSigned(s: Bytes): Option<(bool, nat)> {
    var t := SkipSpaces(s);
    var negative := t != [] && t[0] == 45;
    var u := if t != [] && (t[0] == 43 || t[0] == 45) then t[1..] else t;
    var d := DigitPrefix(u);
    if d == [] then None else Some((negative, ValueOf(d)))
  }

  /** `std::stoull`: a negative number wraps, an overflow throws. */
  function ParseUll(s: Bytes): Option<nat> {
    var (negative, n) :- ParseSigned(s);
    if n >= TWO64 then None
    else if negative && n > 0 then Some(TWO64 - n)
    else Some(n)
  }

  /** `static_cast<ReplicationOp>(std::stoi(...))`: an `int`, cut to one byte. */
  function ParseOp(s: Bytes): Option<nat> {
    var (negative, n) :- ParseSigned(s);
    var v: int := if negative then -(n as int) else n;
    if -0x8000_0000 <= v < 0x8000_0000 then Some(v % 256) else None
  }

  // ---------- the cursor ----------

  function FindFrom(data: Bytes, pos: nat, b: byte): (r: Option<nat>)
    ensures r.Some? ==> pos <= r.value < |data| && data[r.value] == b
    decreases if pos < |data| then |data| - pos else 0
  {
    if pos >= |data| then None
    else if data[pos] == b then Some(pos)
    else FindFrom(data, pos + 1, b)
  }

  /** `nextToken`: the text up to the next delimiter and the position behind it. */
  function NextToken(data: Bytes, pos: nat): Option<(Bytes, nat)> {
    var delim :- FindFrom(data, pos, PIPE);
    Some((data[pos..delim], delim + 1))
  }

  /** `std::string::substr`. */
  function Substr(data: Bytes, pos: nat, len: nat): (r: Option<Bytes>)
    ensures r.Some? <==> pos <= |data|
    ensures r.Some? ==> r.value <= data[pos..] && |r.value| <= len && (|r.value| == len || |r.value| == |data| - pos)
  {
    if pos > |data| then None
    else Some(if pos + len <= |data| then data[pos..pos + len] else data[pos..])
  }

  /** `pos += len + 1` on `size_t`. */
  function Advance(pos: nat, len: nat): (r: nat)
    ensures r < 0x1_0000_0000_0000_0000
    ensures pos + len + 1 < 0x1_0000_0000_0000_0000 ==> r == pos + len + 1
    ensures 0x1_0000_0000_0000_0000 <= pos + len + 1 < 0x2_0000_0000_0000_0000 ==>
              r == pos + len + 1 - 0x1_0000_0000_0000_0000
  {
    (pos + len + 1) % TWO64
  }

  // ---------- entries ----------

  function SerializeEntry(e: LogEntry): Bytes {
    Digits(e.term) + [PIPE] + Digits(e.index) + [PIPE] + Digits(e.op) + [PIPE]
    + Digits(|e.key|) + [PIPE] + e.key + [PIPE] + Digits(|e.value|) + [PIPE] + e.value
  }

  function ParseEntry(data: Bytes): Option<LogEntry> {
    var (termText, p1) :- NextToken(data, 0);
    var (indexText, p2) :- NextToken(data, p1);
    var (opText, p3) :- NextToken(data, p2);
    var term :- ParseUll(termText);
    var index :- ParseUll(indexText);
    var op :- ParseOp(opText);
    var (keyText, p4) :- NextToken(data, p3);
    var keyLen :- ParseUll(keyText);
    var key :- Substr(data, p4, keyLen);
    var (valueText, p6) :- NextToken(data, Advance(p4, keyLen));
    var valueLen :- ParseUll(valueText);
    var value :- Substr(data, p6, valueLen);
    Some(LogEntry(term, index, op, key, value))
  }

  // ---------- messages ----------

  function SerializeEntries(es: seq<LogEntry>): Bytes {
    if es == [] then []
    else
      var text := SerializeEntry(es[0]);
      [PIPE] + (Digits(|text|) + [PIPE] + text + SerializeEntries(es[1..]))
  }

  function SerializeMessage(m: Message): Bytes {
    Digits(m.term) + [PIPE] + Digits(m.leaderCommit) + [PIPE] + Digits(|m.entries|) + SerializeEntries(m.entries)
  }

  function ParseEntries(data: Bytes, pos: nat, n: nat): Option<seq<LogEntry>>
    decreases n
  {
    if n == 0 then Some([])
    else
      var (lenText, p1) :- NextToken(data, pos);
      var len :- ParseUll(lenText);
      var text :- Substr(data, p1, len);
      var e :- ParseEntry(text);
      var rest :- ParseEntries(data, Advance(p1, len), n - 1);
      Some([e] + rest)
  }

  function ParseMessage(data: Bytes): Option<Message> {
    var (termText, p1) :- NextToken(data, 0);
    var term :- ParseUll(termText);
    var (commitText, p2) :- NextToken(data, p1);
    var commit :- ParseUll(commitText);
    var (countText, p3) :- NextToken(data, p2);
    var count :- ParseUll(countText);
    var entries :- ParseEntries(data, p3, count);
    Some(Message(term, commit, entries))
  }

  // ---------- what fits the fields ----------

  ghost predicate FitsEntry(e: LogEntry) {
    e.term < TWO64 && e.index < TWO64 && e.op < 256 && |SerializeEntry(e)| < TWO64
  }

  ghost predicate FitsMessage(m: Message) {
    && m.term < TWO64 && m.leaderCommit < TWO64 && |SerializeMessage(m)| + 1 < TWO64
    && |m.entries| < TWO64
    && forall i :: 0 <= i < |m.entries| ==> FitsEntry(m.entries[i])
  }

  // ---------- round trips ----------

  lemma {:induction false} DigitsAreDigits(n: nat)
    ensures |Digits(n)| >= 1 && forall i :: 0 <= i < |Digits(n)| ==> IsDigit(Digits(n)[i])
    ensures ValueOf(Digits(n)) == n
  {
    if n < 10 {
      assert Digits(n)[..0] == [];
    } else {
      DigitsAreDigits(n / 10);
      assert Digits(n)[..|Digits(n)| - 1] == Digits(n / 10);
    }
  }

  lemma {:induction false} DigitPrefixOfDigits(s: Bytes)
    requires forall i :: 0 <= i < |s| ==> IsDigit(s[i])
    ensures DigitPrefix(s) == s
  {
    if s != [] { DigitPrefixOfDigits(s[1..]); assert s == [s[0]] + s[1..]; }
  }

  lemma {:induction false} ParseDigits(n: nat)
    ensures ParseSigned(Digits(n)) == Some((false, n))
    ensures n < TWO64 ==> ParseUll(Digits(n)) == Some(n)
    ensures n < 256 ==> ParseOp(Digits(n)) == Some(n)
    ensures PIPE !in Digits(n) && NEWLINE !in Digits(n)
  {
    hide Digits, ValueOf, DigitPrefix;
    DigitsAreDigits(n);
    DigitPrefixOfDigits(Digits(n));
    assert SkipSpaces(Digits(n)) == Digits(n);
  }

  lemma {:induction false} SpacesSkipped(spaces: Bytes, s: Bytes)
    requires (forall i :: 0 <= i < |spaces| ==> spaces[i] == 32 || 9 <= spaces[i] <= 13)
    requires s != [] ==> !(s[0] == 32 || 9 <= s[0] <= 13)
    ensures SkipSpaces(spaces + s) == s
  {
    if spaces == [] {
      assert spaces + s == s;
    } else {
      assert (spaces + s)[1..] == spaces[1..] + s;
      SpacesSkipped(spaces[1..], s);
    }
  }

  lemma {:induction false} DigitsThenOther(d: Bytes, rest: Bytes)
    requires (forall i :: 0 <= i < |d| ==> IsDigit(d[i])) && (rest != [] ==> !IsDigit(rest[0]))
    ensures DigitPrefix(d + rest) == d
  {
    if d == [] {
      assert d + rest == rest;
    } else {
      assert (d + rest)[1..] == d[1..] + rest;
      DigitsThenOther(d[1..], rest);
    }
  }

  /**
   * How a number is read: white space before it and anything behind it are ignored, one sign is allowed.
   * 64-bit numbers wrap when negative and fail on overflow; operations are 32-bit and cut to a byte.
   */
  lemma {:induction false} NumberRead(spaces: Bytes, sign: Bytes, n: nat, rest: Bytes)
    requires forall i :: 0 <= i < |spaces| ==> spaces[i] == 32 || 9 <= spaces[i] <= 13
    requires sign in {[], [43], [45]} && (rest != [] ==> !(48 <= rest[0] <= 57))
    ensures var text := spaces + (sign + (Digits(n) + rest));
            var v: int := if sign == [45] then -(n as int) else n;
            && ParseUll(text) == (if n >= TWO64 then None else Some(v % TWO64))
            && ParseOp(text) == if -0x8000_0000 <= v <= 0x7fff_ffff then Some(v % 256) else None
  {
    hide Digits, ValueOf;
    DigitsAreDigits(n);
    var u := Digits(n) + rest;
    DigitsThenOther(Digits(n), rest);
    assert IsDigit(u[0]);
    var t := sign + u;
    SpacesSkipped(spaces, t);
    if sign == [] { assert t == u; } else { assert t[1..] == u; }
    assert ParseSigned(spaces + t) == Some((sign == [45], n));
  }

  /** Without a digit there is no number. */
  lemma {:induction false} NoNumber(spaces: Bytes, sign: Bytes, rest: Bytes)
    requires forall i :: 0 <= i < |spaces| ==> spaces[i] == 32 || 9 <= spaces[i] <= 13
    requires sign in {[], [43], [45]} && (rest != [] ==> !(48 <= rest[0] <= 57))
    requires sign == [] && rest != [] ==> !(rest[0] == 32 || 9 <= rest[0] <= 13 || rest[0] == 43 || rest[0] == 45)
    ensures ParseUll(spaces + (sign + rest)) == None && ParseOp(spaces + (sign + rest)) == None
  {
    var t := sign + rest;
    SpacesSkipped(spaces, t);
    if sign == [] { assert t == rest; } else { assert t[1..] == rest; }
  }

  lemma {:induction false} FindFromAt(data: Bytes, pos: nat, b: byte, at: nat)
    requires pos <= at < |data| && data[at] == b && forall i :: pos <= i < at ==> data[i] != b
    ensures FindFrom(data, pos, b) == Some(at)
    decreases at - pos
  {
    if pos < at { FindFromAt(data, pos + 1, b, at); }
  }

  lemma {:induction false} FindFromNone(data: Bytes, pos: nat, b: byte)
    requires forall i :: pos <= i < |data| ==> data[i] != b
    ensures FindFrom(data, pos, b) == None
    decreases if pos < |data| then |data| - pos else 0
  {
    if pos < |data| { FindFromNone(data, pos + 1, b); }
  }

  /** A token in the middle of a text is read back whole. */
  lemma {:induction false} TokenAt(before: Bytes, token: Bytes, data: Bytes)
    requires before + token + [PIPE] <= data && PIPE !in token
    ensures NextToken(data, |before|) == Some((token, |before + token + [PIPE]|))
  {
    var at := |before| + |token|;
    var front := before + token + [PIPE];
    assert front[at] == PIPE && data[at] == front[at];
    forall i | |before| <= i < at ensures data[i] != PIPE { assert data[i] == front[i] == token[i - |before|]; }
    FindFromAt(data, |before|, PIPE, at);
    assert data[|before|..at] == token;
  }

  lemma {:induction false} SubstrAt(before: Bytes, text: Bytes, data: Bytes)
    requires before + text <= data
    ensures Substr(data, |before|, |text|) == Some(text)
  {
    assert data[|before|..|before| + |text|] == text;
  }

  lemma {:induction false} AdvanceFits(pos: nat, len: nat)
    requires pos + len + 1 < TWO64
    ensures Advance(pos, len) == pos + len + 1
  {
  }

  /** The text of an entry, cut behind each delimiter. */
  ghost function Fronts(e: LogEntry): (t: seq<Bytes>)
    ensures |t| == 7 && t[0] == []
    ensures t[1] == t[0] + Digits(e.term) + [PIPE] && t[2] == t[1] + Digits(e.index) + [PIPE]
    ensures t[3] == t[2] + Digits(e.op) + [PIPE] && t[4] == t[3] + Digits(|e.key|) + [PIPE]
    ensures t[5] == t[4] + e.key + [PIPE] && t[6] == t[5] + Digits(|e.value|) + [PIPE]
    ensures t[6] + e.value == SerializeEntry(e)
  {
    hide Digits;
    var t1 := [] + Digits(e.term) + [PIPE];
    var t2 := t1 + Digits(e.index) + [PIPE];
    var t3 := t2 + Digits(e.op) + [PIPE];
    var t4 := t3 + Digits(|e.key|) + [PIPE];
    var t5 := t4 + e.key + [PIPE];
    var t6 := t5 + Digits(|e.value|) + [PIPE];
    assert t1 == Digits(e.term) + [PIPE];
    [[], t1, t2, t3, t4, t5, t6]
  }

  lemma {:induction false} FrontsArePrefixes(e: LogEntry)
    ensures forall i :: 0 <= i < 7 ==> Fronts(e)[i] <= SerializeEntry(e)
    ensures Fronts(e)[4] + e.key <= SerializeEntry(e)
  {
    hide Digits, SerializeEntry, Fronts;
    var t := Fronts(e);
    assert t[6] <= t[6] + e.value;
    assert t[5] <= t[6];
    assert t[4] + e.key <= t[5];
    assert t[3] <= t[4];
    assert t[2] <= t[3];
    assert t[1] <= t[2];
  }

  /** The parser's cursor visits exactly the cuts. */
  lemma {:induction false} EntryTokens(e: LogEntry)
    ensures var data, t := SerializeEntry(e), Fronts(e);
            && NextToken(data, 0) == Some((Digits(e.term), |t[1]|))
            && NextToken(data, |t[1]|) == Some((Digits(e.index), |t[2]|))
            && NextToken(data, |t[2]|) == Some((Digits(e.op), |t[3]|))
            && NextToken(data, |t[3]|) == Some((Digits(|e.key|), |t[4]|))
            && Substr(data, |t[4]|, |e.key|) == Some(e.key)
            && |t[5]| == |t[4]| + |e.key| + 1 && |t[5]| <= |data|
            && NextToken(data, |t[5]|) == Some((Digits(|e.value|), |t[6]|))
            && Substr(data, |t[6]|, |e.value|) == Some(e.value)
  {
    hide Digits, FindFrom, NextToken, Substr, SerializeEntry, Fronts, ParseSigned, ParseUll, ParseOp;
    ParseDigits(e.term);
    ParseDigits(e.index);
    ParseDigits(e.op);
    ParseDigits(|e.key|);
    ParseDigits(|e.value|);
    var data, t := SerializeEntry(e), Fronts(e);
    FrontsArePrefixes(e);
    TokenAt(t[0], Digits(e.term), data);
    TokenAt(t[1], Digits(e.index), data);
    TokenAt(t[2], Digits(e.op), data);
    TokenAt(t[3], Digits(|e.key|), data);
    SubstrAt(t[4], e.key, data);
    TokenAt(t[5], Digits(|e.value|), data);
    SubstrAt(t[6], e.value, data);
  }

  /** Every entry is read back, whatever bytes its key and value contain. */
  lemma {:induction false} EntryRoundTrip(e: LogEntry)
    requires FitsEntry(e)
    ensures ParseEntry(SerializeEntry(e)) == Some(e)
  {
    hide Digits, FindFrom, ParseUll, ParseOp, NextToken, Substr, Advance, SerializeEntry, Fronts;
    ParseDigits(e.term);
    ParseDigits(e.index);
    ParseDigits(e.op);
    ParseDigits(|e.key|);
    ParseDigits(|e.value|);
    EntryTokens(e);
    AdvanceFits(|Fronts(e)[4]|, |e.key|);
  }

  lemma {:induction false} EntriesRoundTrip(es: seq<LogEntry>, before: Bytes, data: Bytes)
    requires forall i :: 0 <= i < |es| ==> FitsEntry(es[i])
    requires es != [] && data == before + SerializeEntries(es)[1..] && |data| + 1 < TWO64
    ensures ParseEntries(data, |before|, |es|) == Some(es)
  {
    hide Digits, ParseUll, NextToken, Substr, ParseEntry, SerializeEntry, FitsEntry, Advance, ParseEntries,
         SerializeEntries;
    var text := SerializeEntry(es[0]);
    var len := Digits(|text|);
    var rest := SerializeEntries(es[1..]);
    var b1 := before + len + [PIPE];
    var b2 := b1 + text;
    EntriesLayout(es, before, data);
    assert FitsEntry(es[0]);
    EntrySize(es[0]);
    ParseDigits(|text|);
    TokenAt(before, len, data);
    SubstrAt(b1, text, data);
    EntryRoundTrip(es[0]);
    AdvanceFits(|b1|, |text|);
    if |es| > 1 {
      RestLayout(es, b2, rest, data);
      EntriesRoundTrip(es[1..], b2 + [PIPE], data);
    } else {
      NoMoreEntries(data, |b2| + 1);
      assert es[1..] == [];
    }
    assert es == [es[0]] + es[1..];
    ParseEntriesStep(data, |before|, |es|, len, |b1|, |text|, text, es[0], es[1..]);
  }

  lemma {:induction false} NoMoreEntries(data: Bytes, pos: nat)
    ensures ParseEntries(data, pos, 0) == Some([])
  {
  }

  lemma {:induction false} ParseEntriesStep(data: Bytes, pos: nat, n: nat, token: Bytes, p1: nat, len: nat, text: Bytes,
                                            e: LogEntry, rest: seq<LogEntry>)
    requires n > 0 && NextToken(data, pos) == Some((token, p1)) && ParseUll(token) == Some(len)
    requires Substr(data, p1, len) == Some(text) && ParseEntry(text) == Some(e)
    requires ParseEntries(data, Advance(p1, len), n - 1) == Some(rest)
    ensures ParseEntries(data, pos, n) == Some([e] + rest)
  {
    hide ParseUll, NextToken, Substr, ParseEntry, Advance;
  }

  lemma {:induction false} EntriesLayout(es: seq<LogEntry>, before: Bytes, data: Bytes)
    requires es != [] && data == before + SerializeEntries(es)[1..]
    ensures var text := SerializeEntry(es[0]);
            var b1 := before + Digits(|text|) + [PIPE];
            b1 <= data && b1 + text <= data && data == b1 + text + SerializeEntries(es[1..])
  {
    hide Digits, SerializeEntry;
    var text := SerializeEntry(es[0]);
    var len := Digits(|text|);
    var rest := SerializeEntries(es[1..]);
    assert SerializeEntries(es)[1..] == len + [PIPE] + text + rest;
    Regroup(before, len + [PIPE] + text, rest);
    Regroup(before, len + [PIPE], text);
    Regroup(before, len, [PIPE]);
  }

  lemma {:induction false} RestLayout(es: seq<LogEntry>, b2: Bytes, rest: Bytes, data: Bytes)
    requires |es| > 1 && rest == SerializeEntries(es[1..]) && data == b2 + rest
    ensures rest != [] && data == b2 + [PIPE] + rest[1..]
  {
    hide Digits, SerializeEntry;
    var es' := es[1..];
    var text := SerializeEntry(es'[0]);
    assert rest == [PIPE] + (Digits(|text|) + [PIPE] + text + SerializeEntries(es'[1..]));
    assert rest[0] == PIPE && rest == [PIPE] + rest[1..];
  }

  lemma {:induction false} EntrySize(e: LogEntry)
    requires FitsEntry(e)
    ensures |SerializeEntry(e)| < TWO64
  {
  }

  /** A message is read back if and only if it carries at least one entry. */
  lemma {:induction false} MessageRoundTrip(m: Message)
    requires FitsMessage(m)
    ensures m.entries != [] ==> ParseMessage(SerializeMessage(m)) == Some(m)
    ensures m.entries == [] ==> ParseMessage(SerializeMessage(m)) == None
  {
    hide Digits, ParseUll, ParseSigned, ParseOp, NextToken, ParseEntries, FitsEntry, SerializeEntries;
    var data := SerializeMessage(m);
    var a, b, c := Digits(m.term), Digits(m.leaderCommit), Digits(|m.entries|);
    var tail := SerializeEntries(m.entries);
    ParseDigits(m.term);
    ParseDigits(m.leaderCommit);
    ParseDigits(|m.entries|);
    var t1 := a + [PIPE];
    var t2 := t1 + b + [PIPE];
    assert data == t2 + c + tail && t1 <= t2 <= data;
    assert [] + a + [PIPE] == t1;
    TokenAt([], a, data);
    TokenAt(t1, b, data);
    if m.entries == [] {
      NothingSerialized();
      NoTokenLeft(t2, c, data);
    } else {
      HeadLayout(m.entries);
      var t3 := t2 + c + [PIPE];
      assert data == t3 + tail[1..];
      TokenAt(t2, c, data);
      EntriesRoundTrip(m.entries, t3, data);
    }
  }

  lemma {:induction false} NothingSerialized()
    ensures SerializeEntries([]) == []
  {
  }

  lemma {:induction false} HeadLayout(es: seq<LogEntry>)
    requires es != []
    ensures SerializeEntries(es) != [] && SerializeEntries(es) == [PIPE] + SerializeEntries(es)[1..]
  {
    hide Digits, SerializeEntry;
    var text := SerializeEntry(es[0]);
    assert SerializeEntries(es) == [PIPE] + (Digits(|text|) + [PIPE] + text + SerializeEntries(es[1..]));
    assert SerializeEntries(es)[0] == PIPE;
  }

  lemma {:induction false} NoTokenLeft(before: Bytes, token: Bytes, data: Bytes)
    requires data == before + token && PIPE !in token
    ensures NextToken(data, |before|) == None
  {
    forall i | |before| <= i < |data| ensures data[i] != PIPE { assert data[i] == token[i - |before|]; }
    FindFromNone(data, |before|, PIPE);
  }

  // ---------- the parser as the program runs it ----------

  /** A text without delimiters is neither an entry nor a message. */
  lemma {:induction false} NoDelimiter(data: Bytes)
    requires 124 !in data
    ensures ParseEntry(data) == None && ParseMessage(data) == None
  {
    FindFromNone(data, 0, PIPE);
  }

  /** What is left of a parse once `entries` are read: `n` more from `pos`. */
  ghost predicate Continues(whole: Option<seq<LogEntry>>, entries: seq<LogEntry>, rest: Option<seq<LogEntry>>) {
    if rest.None? then whole.None? else whole == Some(entries + rest.value)
  }

  /** `ReplicationMessage::deserialize` with its cursor and its loop; `None` is the exception. */
  method Deserialize(data: Bytes) returns (msg: Option<Message>)
    ensures msg == ParseMessage(data)
  {
    hide ParseUll, NextToken, ParseEntry, Substr, Advance;
    msg := None;
    var token := NextToken(data, 0);
    if token.None? { return; }
    var term := ParseUll(token.value.0);
    if term.None? { return; }
    token := NextToken(data, token.value.1);
    if token.None? { return; }
    var commit := ParseUll(token.value.0);
    if commit.None? { return; }
    token := NextToken(data, token.value.1);
    if token.None? { return; }
    var count := ParseUll(token.value.0);
    if count.None? { return; }
    var entries := ReadEntries(data, token.value.1, count.value);
    if entries.None? { return; }
    msg := Some(Message(term.value, commit.value, entries.value));
  }

  method ReadEntries(data: Bytes, start: nat, count: nat) returns (r: Option<seq<LogEntry>>)
    ensures r == ParseEntries(data, start, count)
  {
    hide ParseUll, NextToken, ParseEntry, Substr, Advance;
    var pos, entries := start, [];
    ghost var whole := ParseEntries(data, start, count);
    if whole.Some? { assert [] + whole.value == whole.value; }
    for i := 0 to count
      invariant Continues(ParseEntries(data, start, count), entries, ParseEntries(data, pos, count - i))
    {
      var token := NextToken(data, pos);
      if token.None? { return None; }
      var len := ParseUll(token.value.0);
      if len.None? { return None; }
      var text := Substr(data, token.value.1, len.value);
      if text.None? { return None; }
      var e := ParseEntry(text.value);
      if e.None? { return None; }
      ghost var rest := ParseEntries(data, Advance(token.value.1, len.value), count - i - 1);
      if rest.Some? { assert entries + ([e.value] + rest.value) == entries + [e.value] + rest.value; }
      pos := Advance(token.value.1, len.value);
      entries := entries + [e.value];
    }
    assert entries + [] == entries;
    r := Some(entries);
  }
}
