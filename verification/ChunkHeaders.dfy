/** Headers in bytes: what any sender's header says to the reader, and what the writer puts on the wire. */
module ChunkHeaders {
  import opened Wire
  import opened Numbers
  import opened Chunks
  import opened ChunkReader
  import opened ChunkTransport
  import opened ChunkInterleaving
  import opened ChunkSession

  // ----- Basic headers, byte by byte

  /** Ids from 2 to 63 in one byte, from 64 to 319 in two, and from 64 to 65599 in three, low byte first. */
  lemma BasicRead(f: Format, n: byte, x: byte, y: byte, k: Bytes)
    ensures 2 <= n < 64 ==> TakeBasic([f * 64 + n] + k) == Ok(Basic(f, n), k)
    ensures TakeBasic([f * 64, x] + k) == Ok(Basic(f, 64 + x), k)
    ensures TakeBasic([f * 64 + 1, x, y] + k) == Ok(Basic(f, 64 + x + 256 * y), k)
  {
    if 2 <= n < 64 {
      assert ([f * 64 + n] + k)[1..] == k;
    }
    assert ([f * 64, x] + k)[1..] == [x] + k;
    assert ([x] + k)[1..] == k;
    assert ([f * 64 + 1, x, y] + k)[1..] == [x, y] + k;
    TakeAppend([x, y], k);
  }

  // ----- Message headers, byte by byte

  lemma FullRead(csid: u32, st: StreamState, t: seq<byte>, l: seq<byte>, typ: byte, s: seq<byte>, k: Bytes)
    requires |t| == |l| == 3 && |s| == 4 && High3(t) < 0xFFFFFF
    ensures TakeHeader(0, csid, st, (t + l + [typ] + s) + k)
            == Ok(Header(0, csid, High3(t), High3(l), typ, Low4(s), 0, 0), k)
  {
    hide High3, Low4, FromBe24, FromLe32;
    var b := t + l + [typ] + s;
    TakeAppend(b, k);
    assert b[..3] == t && b[3..6] == l && b[6] == typ && b[7..] == s;
    NumbersRead(t);
    NumbersRead(l);
    NumbersRead(s);
  }

  /** The field 0xFFFFFF says that 32 bits follow, whatever they are. */
  lemma ExtendedRead(csid: u32, st: StreamState, l: seq<byte>, typ: byte, s: seq<byte>, x: seq<byte>, k: Bytes)
    requires |l| == 3 && |s| == |x| == 4
    ensures TakeHeader(0, csid, st, ([0xFF, 0xFF, 0xFF] + l + [typ] + s) + (x + k))
            == Ok(Header(0, csid, High4(x), High3(l), typ, Low4(s), 0, High4(x)), k)
  {
    hide High3, High4, Low4, FromLe32, FromBe32;
    var b := [0xFF, 0xFF, 0xFF] + l + [typ] + s;
    TakeAppend(b, x + k);
    assert b[..3] == [0xFF, 0xFF, 0xFF] && b[3..6] == l && b[6] == typ && b[7..] == s;
    TakeAppend(x, k);
    NumbersRead(l);
    NumbersRead(s);
    NumbersRead(x);
  }

  /** The three short headers: a difference of 24 bits, or the last one again, is added to the last timestamp modulo
      2^32; length and type are given or those of the last message, and its message stream id stays. */
  lemma DifferenceRead(csid: u32, st: StreamState, t: seq<byte>, l: seq<byte>, typ: byte, k: Bytes)
    requires |t| == |l| == 3
    ensures var d := High3(t);
            && TakeHeader(1, csid, st, (t + l + [typ]) + k)
               == Ok(Header(1, csid, (st.timestamp + d) % 0x1_0000_0000, High3(l), typ, st.msid, d, 0), k)
            && TakeHeader(2, csid, st, t + k)
               == Ok(Header(2, csid, (st.timestamp + d) % 0x1_0000_0000, st.length, st.typ, st.msid, d, 0), k)
    ensures TakeHeader(3, csid, st, k)
            == Ok(Header(3, csid, (st.timestamp + st.delta) % 0x1_0000_0000, st.length, st.typ, st.msid, st.delta, 0),
                  k)
  {
    hide High3, FromBe24, Wrap32;
    var b := t + l + [typ];
    TakeAppend(b, k);
    assert b[..3] == t && b[3..6] == l && b[6] == typ;
    NumbersRead(t);
    NumbersRead(l);
    TakeAppend(t, k);
  }

  // ----- Timestamps over a run of any sender's chunks

  /** What a chunk's bytes say about its timestamp. */
  datatype Told = Full(time: nat) | Difference(d: nat) | Repeat

  function BasicLength(w: Bytes): nat
    requires w != []
  {
    if w[0] % 64 == 0 then 2 else if w[0] % 64 == 1 then 3 else 1
  }

  /** The chunk is long enough for its timestamp. */
  predicate HasTime(w: Bytes) {
    && w != []
    && var n := BasicLength(w);
       if w[0] < 64 then |w| >= n + 11 && (High3(w[n..]) == 0xFFFFFF ==> |w| >= n + 15)
       else if w[0] < 192 then |w| >= n + 3
       else true
  }

  function TimeTold(w: Bytes): Told
    requires HasTime(w)
  {
    var n := BasicLength(w);
    if w[0] < 64 then
      if High3(w[n..]) == 0xFFFFFF
      then Full(High4(w[n + 11..]))
      else Full(High3(w[n..]))
    else if w[0] < 192 then Difference(High3(w[n..]))
    else Repeat
  }

  /** What a chunk makes of a clock and of the difference that a chunk without one repeats: a full timestamp sets the
      clock, and that difference to 0; other chunks add to it. */
  function Tick(base: int, delta: nat, w: Bytes): (int, nat)
    requires HasTime(w)
  {
    match TimeTold(w)
    case Full(t) => (t, 0)
    case Difference(d) => (base + d, d)
    case Repeat => (base + delta, delta)
  }

  /** The last full timestamp, or `base` before any, plus all differences since. */
  function Clock(base: int, delta: nat, ws: seq<Bytes>): int
    requires forall i | 0 <= i < |ws| :: HasTime(ws[i])
    decreases |ws|
  {
    if ws == [] then base else
      var (base', delta') := Tick(base, delta, ws[0]);
      Clock(base', delta', ws[1..])
  }

  lemma Front3(a: seq<byte>, b: seq<byte>)
    requires |a| == 3 <= |b| && a == b[..3]
    ensures FromBe24(a) == High3(b)
  {
  }

  lemma Front4(a: seq<byte>, b: seq<byte>)
    requires |a| == 4 <= |b| && a == b[..4]
    ensures FromBe32(a) == High4(b)
  {
  }

  lemma HeaderTold(w: Bytes, st: StreamState)
    requires TakeBasic(w).Ok?
    requires TakeHeader(TakeBasic(w).value.format, TakeBasic(w).value.csid, st, TakeBasic(w).rest).Ok?
    ensures HasTime(w)
    ensures var h := TakeHeader(TakeBasic(w).value.format, TakeBasic(w).value.csid, st, TakeBasic(w).rest).value;
            match TimeTold(w)
            case Full(t) => h.timestamp == t && h.delta == 0
            case Difference(d) => h.timestamp == (st.timestamp + d) % 0x1_0000_0000 && h.delta == d
            case Repeat => h.timestamp == (st.timestamp + st.delta) % 0x1_0000_0000 && h.delta == st.delta
  {
    hide FromLe32, FromBe24, FromBe32, High3, High4, Wrap32;
    var n, rest := BasicLength(w), TakeBasic(w).rest;
    assert rest == w[n..];
    if w[0] < 64 {
      Front3(rest[..11][..3], rest);
      if High3(rest) == 0xFFFFFF {
        Front4(rest[11..][..4], w[n + 11..]);
      }
    } else if w[0] < 128 {
      Front3(rest[..7][..3], rest);
    } else if w[0] < 192 {
      Front3(rest[..3], rest);
    }
  }

  /** What a header says besides its timestamp: a full one all, a Type 1 header length and type, the others nothing;
      the rest is as in the state `st` of the chunk stream. */
  predicate SaysRest(w: Bytes, st: StreamState, length: u32, typ: byte, msid: u32)
    requires HasTime(w)
  {
    var n := BasicLength(w);
    if w[0] < 64 then length == High3(w[n + 3..]) && typ == w[n + 6] && msid == Low4(w[n + 7..])
    else if w[0] < 128 then |w| >= n + 7 && length == High3(w[n + 3..]) && typ == w[n + 6] && msid == st.msid
    else length == st.length && typ == st.typ && msid == st.msid
  }

  lemma RestTold(w: Bytes, st: StreamState)
    requires TakeBasic(w).Ok?
    requires TakeHeader(TakeBasic(w).value.format, TakeBasic(w).value.csid, st, TakeBasic(w).rest).Ok?
    ensures HasTime(w)
    ensures var h := TakeHeader(TakeBasic(w).value.format, TakeBasic(w).value.csid, st, TakeBasic(w).rest).value;
            SaysRest(w, st, h.length, h.typ, h.msid)
  {
    hide FromLe32, FromBe24, FromBe32, High3, High4, Low4, Wrap32;
    HeaderTold(w, st);
    var n, rest := BasicLength(w), TakeBasic(w).rest;
    assert rest == w[n..];
    if w[0] < 64 {
      PartOf(w, n, 11, 3, 6);
      PartOf(w, n, 11, 7, 11);
      Front3(rest[..11][3..6], w[n + 3..]);
      assert rest[..11][7..] == rest[..11][7..11];
      FrontLow4(rest[..11][7..], w[n + 7..]);
    } else if w[0] < 128 {
      PartOf(w, n, 7, 3, 6);
      Front3(rest[..7][3..6], w[n + 3..]);
    }
  }

  lemma PartOf(w: Bytes, n: nat, m: nat, i: nat, j: nat)
    requires n + m <= |w| && i <= j <= m
    ensures w[n..][..m][i..j] == w[n + i..][..j - i]
  {
  }

  lemma FrontLow4(a: seq<byte>, b: seq<byte>)
    requires |a| == 4 <= |b| && a == b[..4]
    ensures FromLe32(a) == Low4(b)
  {
  }

  /** What a chunk stream remembers of a chunk besides its timestamp. */
  lemma StepRemembers(r: Reader, w: Bytes, id: u32)
    requires Safe(r) && On(w, id) && Step(r, w).Ok?
    ensures HasTime(w)
    ensures var st, st' := StateOf(r.states, id), StateOf(Step(r, w).value.reader.states, id);
            SaysRest(w, st, st'.length, st'.typ, st'.msid)
  {
    hide TakeBasic, TakeHeader, Assemble, DataSize, HasTime, SaysRest, Safe, Account;
    SafeParts(r, id);
    RestTold(w, StateOf(r.states, id));
  }

  /** What one chunk does to the clock of its chunk stream. */
  lemma StepTold(r: Reader, w: Bytes, id: u32)
    requires Safe(r) && On(w, id) && Step(r, w).Ok?
    ensures HasTime(w)
    ensures var st, st' := StateOf(r.states, id), StateOf(Step(r, w).value.reader.states, id);
            match TimeTold(w)
            case Full(t) => st'.timestamp == t && st'.delta == 0
            case Difference(d) => st'.timestamp == (st.timestamp + d) % 0x1_0000_0000 && st'.delta == d
            case Repeat => st'.timestamp == (st.timestamp + st.delta) % 0x1_0000_0000 && st'.delta == st.delta
  {
    hide TakeBasic, TakeHeader, Assemble, DataSize, HasTime, TimeTold, Safe, Account;
    SafeParts(r, id);
    HeaderTold(w, StateOf(r.states, id));
  }

  lemma StepTicks(r: Reader, w: Bytes, id: u32, base: int)
    requires Safe(r) && On(w, id) && Step(r, w).Ok?
    requires StateOf(r.states, id).timestamp == base % 0x1_0000_0000
    ensures HasTime(w)
    ensures var st, (base', delta') := StateOf(Step(r, w).value.reader.states, id),
                                       Tick(base, StateOf(r.states, id).delta, w);
            st.timestamp == base' % 0x1_0000_0000 && st.delta == delta'
  {
    hide Step, Safe, HasTime, TimeTold, On;
    StepTold(r, w, id);
    var st := StateOf(r.states, id);
    match TimeTold(w) {
      case Full(t) => Modulo(t, 0);
      case Difference(d) => Modulo(base, d);
      case Repeat => Modulo(base, st.delta);
    }
  }

  /** Over any run, whoever sent the chunks and however chunk streams are interleaved: the timestamp of each chunk
      stream is its last full timestamp plus the sum of all differences since, modulo 2^32. By `RunPrefix` that is so
      after every chunk. */
  lemma {:induction false} RunClock(r: Reader, ws: seq<Bytes>, id: u32, base: int)
    requires Safe(r) && RunChunks(r, ws).Ran?
    requires StateOf(r.states, id).timestamp == base % 0x1_0000_0000
    ensures forall i | 0 <= i < |Project(ws, id)| :: HasTime(Project(ws, id)[i])
    ensures StateOf(RunChunks(r, ws).reader.states, id).timestamp
            == Clock(base, StateOf(r.states, id).delta, Project(ws, id)) % 0x1_0000_0000
    decreases |ws|
  {
    hide TakeBasic, Step, Safe, HasTime, Tick, LocalOf, RunChunks, Clock;
    if ws == [] {
      NoClock(r, base, StateOf(r.states, id).delta);
    } else {
      RunUnfolds(r, ws);
      StepIsSafe(r, ws[0]);
      var r1 := Step(r, ws[0]).value.reader;
      var tail := Project(ws[1..], id);
      assert TakeBasic(ws[0]).Ok? by { StepReads(r, ws[0]); }
      var j := TakeBasic(ws[0]).value.csid;
      StepIsLocal(r, ws[0], j);
      if j == id {
        assert Project(ws, id) == [ws[0]] + tail;
        var delta := StateOf(r.states, id).delta;
        StepTicks(r, ws[0], id, base);
        RunClock(r1, ws[1..], id, Tick(base, delta, ws[0]).0);
        ClockMore(base, delta, ws[0], tail);
      } else {
        assert Project(ws, id) == [] + tail == tail;
        StateElsewhere(r, r1, id, j);
        RunClock(r1, ws[1..], id, base);
      }
    }
  }

  lemma NoClock(r: Reader, base: int, delta: nat)
    requires Safe(r)
    ensures RunChunks(r, []).Ran? && RunChunks(r, []).reader == r && Clock(base, delta, []) == base
  {
  }

  lemma RunUnfolds(r: Reader, ws: seq<Bytes>)
    requires Safe(r) && RunChunks(r, ws).Ran? && ws != []
    ensures var p := Step(r, ws[0]);
            && p.Ok? && p.rest == [] && Safe(p.value.reader)
            && RunChunks(p.value.reader, ws[1..]).Ran?
            && RunChunks(p.value.reader, ws[1..]).reader == RunChunks(r, ws).reader
  {
    hide Step, Safe;
    StepIsSafe(r, ws[0]);
  }

  lemma ClockMore(base: int, delta: nat, w: Bytes, tail: seq<Bytes>)
    requires HasTime(w) && forall i | 0 <= i < |tail| :: HasTime(tail[i])
    ensures forall i | 0 <= i < |[w] + tail| :: HasTime(([w] + tail)[i])
    ensures Clock(base, delta, [w] + tail) == Clock(Tick(base, delta, w).0, Tick(base, delta, w).1, tail)
  {
    hide HasTime, Tick;
    assert ([w] + tail)[1..] == tail;
  }

  lemma StateElsewhere(r: Reader, r': Reader, id: u32, j: u32)
    requires SameElsewhere(r, r', j) && id != j
    ensures StateOf(r'.states, id) == StateOf(r.states, id)
  {
    assert LocalOf(r', id) == LocalOf(r, id);
  }

  lemma Modulo(a: int, d: int)
    ensures (a % 0x1_0000_0000 + d) % 0x1_0000_0000 == (a + d) % 0x1_0000_0000
  {
  }

  lemma StepReads(r: Reader, w: Bytes)
    requires Safe(r) && Step(r, w).Ok?
    ensures TakeBasic(w).Ok?
  {
  }

  // ----- How much is read, and where it goes

  /** A message begins with the smaller of its length and the chunk size. One in progress goes on with the smaller of
      what is missing and the chunk size, or with a full chunk if a header has made it shorter than what has come. */
  lemma SizeRead(h: Header, st: StreamState, p: Partial, size: u32)
    requires SafeSize(size) && SafePartial(p) && h.length < U24 && st.length < U24
    ensures var n := if h.length == 0 then st.length else h.length;
            && DataSize(h, st, None, size) == (if n <= size then n else size)
            && DataSize(h, st, Some(p), size) == if n < p.bytesRead then size
                                                 else if n - p.bytesRead <= size then n - p.bytesRead
                                                 else size
  {
  }

  function MessageOf(a: Assembled): Message {
    match a
    case Pending(p) => p.message
    case Complete(m) => m
  }

  /** A message has everything but its payload from the header of its first chunk; later headers change nothing of it,
      not even its timestamp. Each chunk's payload follows what has come before. */
  lemma AssembledFrom(c: Chunk, p: Partial)
    requires SafePartial(p) && |c.data| < U32
    ensures var m, h := MessageOf(Assemble(None, c)), c.header;
            && m.csid == h.csid && m.msid == h.msid && m.timestamp == h.timestamp && m.typ == h.typ
            && m.length == h.length == |m.data|
            && forall i | 0 <= i < |c.data| && i < h.length :: m.data[i] == c.data[i]
    ensures Assemble(None, c).Complete? <==> |c.data| >= c.header.length
    ensures var m := MessageOf(Assemble(Some(p), c));
            && m == p.message.(data := m.data) && |m.data| == |p.message.data|
            && m.data[..p.bytesRead] == p.message.data[..p.bytesRead]
            && forall i | 0 <= i < |c.data| && p.bytesRead + i < |m.data| :: m.data[p.bytesRead + i] == c.data[i]
    ensures p.bytesRead + |c.data| < U32 ==>
              (Assemble(Some(p), c).Complete? <==> p.bytesRead + |c.data| >= p.message.length)
  {
  }

  /** The bytes charged for a chunk are those it takes from the input, but for the second and third byte of its basic
      header and an extended timestamp. */
  lemma ChargeIsConsumed(r: Reader, s: Bytes)
    requires Safe(r) && Step(r, s).Ok?
    ensures HasTime(s)
    ensures Charge(r, s) == |s| - |Step(r, s).rest| - (BasicLength(s) - 1)
                            - if s[0] < 64 && High3(s[BasicLength(s)..]) == 0xFFFFFF then 4 else 0
  {
    hide Assemble, DataSize, Account, High3, FromBe24, FromLe32, FromBe32, Wrap32, Safe, Recall;
    var b := TakeBasic(s);
    var id := b.value.csid;
    SafeParts(r, id);
    HeaderTold(s, LocalOf(r, id).state);
    HeaderTaken(s, LocalOf(r, id).state);
  }

  lemma HeaderTaken(w: Bytes, st: StreamState)
    requires TakeBasic(w).Ok?
    requires TakeHeader(TakeBasic(w).value.format, TakeBasic(w).value.csid, st, TakeBasic(w).rest).Ok?
    ensures HasTime(w)
    ensures var rest := TakeHeader(TakeBasic(w).value.format, TakeBasic(w).value.csid, st, TakeBasic(w).rest).rest;
            |w| - |rest| == BasicLength(w) + [11, 7, 3, 0][w[0] / 64]
                            + if w[0] < 64 && High3(w[BasicLength(w)..]) == 0xFFFFFF then 4 else 0
  {
    hide FromLe32, FromBe24, FromBe32, High3, Wrap32;
    HeaderTold(w, st);
    var n, rest := BasicLength(w), TakeBasic(w).rest;
    assert rest == w[n..];
    if w[0] < 64 {
      Front3(rest[..11][..3], rest);
    }
  }

  // ----- What the writer puts on the wire

  /** The header of a message's first chunk, told from the message and from what the writer remembers of the last one on
      its chunk stream. Unless kind and length are the same it is a full one: timestamp, length and type with their high
      bytes first, and the message stream id with its low byte first. Otherwise it holds a difference that is always 0;
      if the timestamps differ also length and type, and if they differ by more than 24 bits the difference after all,
      as an extended timestamp. */
  lemma FirstHeaderBytes(st: StreamState, m: Message)
    requires 0 < m.length < U24
    ensures var h, t, l, s := FirstHeader(st, m), m.timestamp, m.length, m.msid;
            var same := st.msid == s && st.length == l && st.typ == m.typ;
            var d := (t - st.timestamp) % 0x1_0000_0000;
            && h.csid == m.csid
            && h.format == (if !same then 0 else if st.timestamp != t then 1 else 2)
            && MessageHeader(h) + ExtendedTimestamp(h)
               == if !same && t < 0xFFFFFF then
                    [t / 65536, t / 256 % 256, t % 256, l / 65536, l / 256 % 256, l % 256, m.typ,
                     s % 256, s / 256 % 256, s / 65536 % 256, s / 16777216]
                  else if !same then
                    [0xFF, 0xFF, 0xFF, l / 65536, l / 256 % 256, l % 256, m.typ,
                     s % 256, s / 256 % 256, s / 65536 % 256, s / 16777216,
                     t / 16777216, t / 65536 % 256, t / 256 % 256, t % 256]
                  else if st.timestamp == t then [0, 0, 0]
                  else if d < 0xFFFFFF then [0, 0, 0, l / 65536, l / 256 % 256, l % 256, m.typ]
                  else [0, 0, 0, l / 65536, l / 256 % 256, l % 256, m.typ,
                        d / 16777216, d / 65536 % 256, d / 256 % 256, d % 256]
  {
    hide FirstHeader, MessageHeader, ExtendedTimestamp;
    FirstHeaderIs(st, m);
    var h := FirstHeader(st, m);
    if h.format == 0 {
      FullBytes(h);
    } else {
      ShortBytes(h);
    }
  }

  lemma FirstHeaderIs(st: StreamState, m: Message)
    ensures var h, t := FirstHeader(st, m), m.timestamp;
            var same := st.msid == m.msid && st.length == m.length && st.typ == m.typ;
            var d := (t - st.timestamp) % 0x1_0000_0000;
            && h.csid == m.csid && h.length == m.length && h.typ == m.typ && h.msid == m.msid && h.delta == 0
            && h.format == (if !same then 0 else if st.timestamp != t then 1 else 2)
            && (!same ==> h.timestamp == if t < 0xFFFFFF then t else 0xFFFFFF)
            && h.extended == if !same then if t < 0xFFFFFF then 0 else t else if d < 0xFFFFFF then 0 else d
  {
  }

  lemma FullBytes(h: Header)
    requires h.format == 0 && h.timestamp <= 0xFFFFFF && h.length < U24
    ensures var a, l, s, x := h.timestamp, h.length, h.msid, h.extended;
            MessageHeader(h) + ExtendedTimestamp(h)
            == [a / 65536, a / 256 % 256, a % 256, l / 65536, l / 256 % 256, l % 256, h.typ,
                s % 256, s / 256 % 256, s / 65536 % 256, s / 16777216]
               + if x == 0 then [] else [x / 16777216, x / 65536 % 256, x / 256 % 256, x % 256]
  {
    hide Be24, Be32, Le32;
    Places(h.timestamp, h.length, h.msid, h.extended);
  }

  lemma Places(a: u24, b: u24, s: u32, x: u32)
    ensures Be24(a) == [a / 65536, a / 256 % 256, a % 256] && Be24(b) == [b / 65536, b / 256 % 256, b % 256]
    ensures Le32(s) == [s % 256, s / 256 % 256, s / 65536 % 256, s / 16777216]
    ensures Be32(x) == [x / 16777216, x / 65536 % 256, x / 256 % 256, x % 256]
  {
  }

  lemma ShortBytes(h: Header)
    requires (h.format == 1 || h.format == 2) && h.delta == 0 && h.length < U24
    ensures var l, x := h.length, h.extended;
            MessageHeader(h) + ExtendedTimestamp(h)
            == (if h.format == 1 then [0, 0, 0, l / 65536, l / 256 % 256, l % 256, h.typ] else [0, 0, 0])
               + if x == 0 then [] else [x / 16777216, x / 65536 % 256, x / 256 % 256, x % 256]
  {
    hide Be24, Be32;
    Places(0, h.length, 0, h.extended);
    assert Be24(0) == [0, 0, 0];
  }

  /** No other bytes that say the same format and chunk stream id are fewer than those written. */
  lemma BasicIsShortest(f: Format, id: u32, s: Bytes)
    requires TakeBasic(s).Ok? && TakeBasic(s).value == Basic(f, id)
    ensures |BasicHeader(f, id)| <= |s| - |TakeBasic(s).rest|
  {
  }

  lemma ContinuationBytes(m: Message, d: Bytes)
    ensures WireOf(Chunk(MakeHeader(3, m, 0), d)) == BasicHeader(3, m.csid) + d
  {
    assert [] + ([] + d) == d;
  }

  lemma AudioChunk(m: Message, h: Header)
    requires |m.data| == 2 && h == FirstHeader(FRESH, m)
    ensures CreateChunks(FRESH, m, 128) == [Chunk(h, m.data)]
  {
    assert m.data[..2] == m.data && m.data[2..] == [];
    assert CreateChunks(FRESH, m, 128) == [Chunk(h, m.data)] + [];
  }

  lemma AudioWire(m: Message, h: Header)
    requires m == Message(4, 1, 0x010203, 8, 2, [0xAF, 0x00]) && h == FirstHeader(FRESH, m)
    ensures WireOf(Chunk(h, m.data)) == [4, 1, 2, 3, 0, 0, 2, 8, 1, 0, 0, 0, 0xAF, 0x00]
  {
    hide MessageHeader, ExtendedTimestamp;
    FirstHeaderBytes(FRESH, m);
    Concat(MessageHeader(h), ExtendedTimestamp(h), m.data);
  }

  /** A whole chunk: an audio message of two bytes, 0x010203 milliseconds in, on chunk stream 4 and message stream 1. */
  lemma AudioBytes()
    ensures var m := Message(4, 1, 0x010203, 8, 2, [0xAF, 0x00]);
            Flatten(Wires(CreateChunks(FRESH, m, 128))) == [4, 1, 2, 3, 0, 0, 2, 8, 1, 0, 0, 0, 0xAF, 0x00]
  {
    hide FirstHeader, WireOf;
    var m := Message(4, 1, 0x010203, 8, 2, [0xAF, 0x00]);
    var h := FirstHeader(FRESH, m);
    var cs := CreateChunks(FRESH, m, 128);
    assert m.data[..2] == m.data && m.data[2..] == [];
    assert cs == [Chunk(h, m.data)] by { AudioChunk(m, h); }
    AudioWire(m, h);
    assert cs[1..] == [];
    assert Wires(cs) == [WireOf(cs[0])];
    assert Wires(cs)[1..] == [];
  }

  // ----- Chunk stream ids that the writer chooses

  function NthId(k: nat): u32 {
    if k == 0 then FIRST_CHUNK_ID else NextId(NthId(k - 1))
  }

  /** They are 2, 3, ..., 65535, and again from 2. */
  lemma {:induction false} IdsCycle(k: nat)
    ensures NthId(k) == 2 + k % 65534
    decreases k
  {
    hide NextId;
    if k > 0 {
      IdsCycle(k - 1);
      IdAfter(2 + (k - 1) % 65534);
      Rounds(k - 1);
    }
  }

  lemma IdAfter(id: u32)
    requires 2 <= id <= 65535
    ensures NextId(id) == if id == 65535 then 2 else id + 1
  {
  }

  lemma Rounds(k: nat)
    ensures (k + 1) % 65534 == if k % 65534 == 65533 then 0 else k % 65534 + 1
  {
    var q, j := k / 65534, k % 65534;
    if j == 65533 {
      assert k + 1 == 65534 * (q + 1);
    } else {
      assert k + 1 == 65534 * q + (j + 1);
    }
  }
}
