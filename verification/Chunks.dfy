/** Messages, chunks and their wire format, and the two ends of a chunk stream as functions on their states
    (sections 5.3.1 and 5.4.1 of the RTMP 1.0 specification). */
module Chunks {
  import opened Wire

  const DEFAULT_CHUNK_SIZE: u32 := 128
  const MAX_CHUNK_SIZE: u32 := 65536
  const WINDOW_ACK_SIZE: u32 := 2500000
  const FIRST_CHUNK_ID: u32 := 2
  const LAST_CHUNK_ID: u32 := 65535

  /** A timestamp field with this value says that 32 bits follow the header. */
  const EXTENDED: u32 := 0xFF_FFFF

  const U24: int := 0x100_0000

  type Format = f: int | 0 <= f <= 3

  datatype Message = Message(csid: u32, msid: u32, timestamp: u32, typ: byte, length: u32, data: Bytes)

  /** What an end remembers of the last message on a chunk stream. */
  datatype StreamState = StreamState(timestamp: u32, length: u32, typ: byte, msid: u32, delta: u32)

  const FRESH := StreamState(0, 0, 0, 0, 0)

  function StateOf(states: map<u32, StreamState>, id: u32): StreamState {
    if id in states then states[id] else FRESH
  }

  datatype Header = Header(format: Format, csid: u32, timestamp: u32, length: u32, typ: byte, msid: u32,
                           delta: u32, extended: u32)

  datatype Chunk = Chunk(header: Header, data: Bytes)

  // ----- The writer

  function Min(a: int, b: int): int {
    if a <= b then a else b
  }

  /** How much of the header the last message on the chunk stream leaves to say. */
  function FormatOf(st: StreamState, m: Message): Format {
    if st.msid != m.msid || st.length != m.length || st.typ != m.typ then 0
    else if st.timestamp != m.timestamp then 1
    else 2
  }

  /** The timestamp of a full header, the difference to the last one, or nothing. */
  function TimeField(st: StreamState, m: Message): u32 {
    match FormatOf(st, m)
    case 0 => m.timestamp
    case 1 => Wrap32(m.timestamp - st.timestamp)
    case _ => 0
  }

  function MakeHeader(f: Format, m: Message, time: u32): Header {
    if time >= EXTENDED
    then Header(f, m.csid, EXTENDED, m.length, m.typ, m.msid, 0, time)
    else Header(f, m.csid, time, m.length, m.typ, m.msid, 0, 0)
  }

  /** The chunks after the first. */
  function Continuations(m: Message, data: Bytes, size: u32): seq<Chunk>
    requires size > 0
    decreases |data|
  {
    if data == [] then [] else
      var n := Min(|data|, size);
      [Chunk(MakeHeader(3, m, 0), data[..n])] + Continuations(m, data[n..], size)
  }

  function CreateChunks(st: StreamState, m: Message, size: u32): seq<Chunk>
    requires size > 0
  {
    var data := m.data[..Wrap32(|m.data|)];
    if data == [] then [] else
      var n := Min(|data|, size);
      [Chunk(MakeHeader(FormatOf(st, m), m, TimeField(st, m)), data[..n])] + Continuations(m, data[n..], size)
  }

  /** The writer's memory of a message; its delta is never set. */
  function Remember(st: StreamState, m: Message): StreamState {
    StreamState(m.timestamp, m.length, m.typ, m.msid, st.delta)
  }

  function BasicHeader(f: Format, id: u32): Bytes {
    if id < 64 then [f * 64 + id]
    else if id < 320 then [f * 64, id - 64]
    else [f * 64 + 1, (id - 64) % 0x100, (id - 64) / 0x100 % 0x100]
  }

  function MessageHeader(h: Header): Bytes {
    match h.format
    case 0 => Be24(Min(h.timestamp, EXTENDED)) + (Be24(h.length % U24) + ([h.typ] + Le32(h.msid)))
    case 1 => Be24(h.delta % U24) + (Be24(h.length % U24) + [h.typ])
    case 2 => Be24(h.delta % U24)
    case _ => []
  }

  function ExtendedTimestamp(h: Header): Bytes {
    if h.extended > 0 then Be32(h.extended) else []
  }

  function WireOf(c: Chunk): Bytes {
    BasicHeader(c.header.format, c.header.csid) + (MessageHeader(c.header) + (ExtendedTimestamp(c.header) + c.data))
  }

  function Wires(cs: seq<Chunk>): seq<Bytes> {
    if cs == [] then [] else [WireOf(cs[0])] + Wires(cs[1..])
  }

  function Flatten(ws: seq<Bytes>): Bytes {
    if ws == [] then [] else ws[0] + Flatten(ws[1..])
  }

  datatype Writer = Writer(size: u32, states: map<u32, StreamState>, nextId: u32)

  const FRESH_WRITER := Writer(DEFAULT_CHUNK_SIZE, map[], FIRST_CHUNK_ID)

  /** The message as written: a length and a chunk stream id where the caller gave none. */
  function Effective(w: Writer, m: Message): Message {
    m.(length := if m.length == 0 then Wrap32(|m.data|) else m.length,
       csid := if m.csid == 0 then w.nextId else m.csid)
  }

  function NextId(id: u32): u32 {
    if Wrap32(id + 1) > LAST_CHUNK_ID then FIRST_CHUNK_ID else Wrap32(id + 1)
  }

  function ChunksOf(w: Writer, m: Message): seq<Chunk>
    requires w.size > 0
  {
    CreateChunks(StateOf(w.states, Effective(w, m).csid), Effective(w, m), w.size)
  }

  function AfterWriting(w: Writer, m: Message): Writer {
    var e := Effective(w, m);
    w.(states := w.states[e.csid := Remember(StateOf(w.states, e.csid), e)],
       nextId := if m.csid == 0 then NextId(w.nextId) else w.nextId)
  }

  // ----- The reader

  /** A message of which `bytesRead` bytes have come in. */
  datatype Partial = Partial(message: Message, bytesRead: u32)

  /** What the reader knows of one chunk stream. */
  datatype Local = Local(state: StreamState, partial: Option<Partial>)

  datatype Reader = Reader(size: u32, states: map<u32, StreamState>, partials: map<u32, Partial>,
                           received: u32, acked: u32, window: u32)

  const FRESH_READER := Reader(DEFAULT_CHUNK_SIZE, map[], map[], 0, 0, WINDOW_ACK_SIZE)

  function LocalOf(r: Reader, id: u32): Local {
    Local(StateOf(r.states, id), if id in r.partials then Some(r.partials[id]) else None)
  }

  function WithLocal(r: Reader, id: u32, l: Local): Reader {
    r.(states := r.states[id := l.state],
       partials := match l.partial case Some(p) => r.partials[id := p] case None => r.partials - {id})
  }

  /** A message in progress has some but not all of its bytes, in a buffer of its full length. */
  predicate SafePartial(p: Partial) {
    1 <= p.bytesRead < p.message.length == |p.message.data| < U24
  }

  predicate SafeLocal(l: Local) {
    l.state.length < U24 && (l.partial.Some? ==> SafePartial(l.partial.value))
  }

  predicate SafeSize(size: u32) {
    1 <= size <= MAX_CHUNK_SIZE
  }

  ghost predicate Safe(r: Reader) {
    && SafeSize(r.size)
    && (forall id | id in r.states :: r.states[id].length < U24)
    && (forall id | id in r.partials :: SafePartial(r.partials[id]))
  }

  datatype Basic = Basic(format: Format, csid: u32)

  /** One to three bytes: a format and a chunk stream id. */
  function TakeBasic(s: Bytes): (r: Parsed<Basic, Bytes>)
    ensures r.Ok? ==> |r.rest| < |s|
  {
    var (b, r) :- TakeByte(s);
    var f, low := b / 64, b % 64;
    if low == 0 then
      var (x, r) :- TakeByte(r);
      Ok(Basic(f, x as int + 64), r)
    else if low == 1 then
      var (x, r) :- Take(r, 2);
      Ok(Basic(f, x[0] as int + x[1] as int * 0x100 + 64), r)
    else
      Ok(Basic(f, low), r)
  }

  /** A header in full, as far as the wire and the state of the chunk stream give it. */
  function TakeHeader(f: Format, csid: u32, st: StreamState, s: Bytes): (r: Parsed<Header, Bytes>)
    ensures r.Ok? ==> |r.rest| <= |s|
  {
    match f
    case 0 =>
      var (b, r) :- Take(s, 11);
      var time, length, msid := FromBe24(b[..3]), FromBe24(b[3..6]), FromLe32(b[7..]);
      if time == EXTENDED then
        var (x, r) :- TakeBe32(r);
        Ok(Header(f, csid, x, length, b[6], msid, 0, x), r)
      else
        Ok(Header(f, csid, time, length, b[6], msid, 0, 0), r)
    case 1 =>
      var (b, r) :- Take(s, 7);
      var delta := FromBe24(b[..3]);
      Ok(Header(f, csid, Wrap32(st.timestamp + delta), FromBe24(b[3..6]), b[6], st.msid, delta, 0), r)
    case 2 =>
      var (b, r) :- Take(s, 3);
      var delta := FromBe24(b);
      Ok(Header(f, csid, Wrap32(st.timestamp + delta), st.length, st.typ, st.msid, delta, 0), r)
    case _ =>
      Ok(Header(f, csid, Wrap32(st.timestamp + st.delta), st.length, st.typ, st.msid, st.delta, 0), s)
  }

  /** The reader's memory of a header. */
  function Recall(h: Header): StreamState {
    StreamState(h.timestamp, h.length, h.typ, h.msid, h.delta)
  }

  /** How many payload bytes the reader takes after a header, with `st` its state after that header. */
  function DataSize(h: Header, st: StreamState, partial: Option<Partial>, size: u32): u32 {
    var length := if h.length == 0 then st.length else h.length;
    match partial
    case None => Min(length, size)
    case Some(p) => Min(Wrap32(length - p.bytesRead), size)
  }

  function Zeros(n: nat): Bytes {
    seq(n, _ => 0)
  }

  /** Go's `copy(dst[at:], src)`: as much of `src` as there is room for. */
  function CopyInto(dst: Bytes, at: nat, src: Bytes): (b: Bytes)
    requires at <= |dst|
    ensures |b| == |dst|
  {
    var n := Min(|dst| - at, |src|);
    dst[..at] + src[..n] + dst[at + n..]
  }

  /** A message as its first chunk starts it. */
  function Begin(c: Chunk): Message {
    var h := c.header;
    Message(h.csid, h.msid, h.timestamp, h.typ, h.length, CopyInto(Zeros(h.length), 0, c.data))
  }

  /** What is in progress after a chunk, or the message it completes. */
  datatype Assembled = Pending(partial: Partial) | Complete(message: Message)

  function Assemble(partial: Option<Partial>, c: Chunk): Assembled
    requires partial.Some? ==> partial.value.bytesRead <= |partial.value.message.data|
  {
    match partial
    case None =>
      if Wrap32(|c.data|) >= c.header.length then Complete(Begin(c)) else Pending(Partial(Begin(c), Wrap32(|c.data|)))
    case Some(p) =>
      var m := p.message.(data := CopyInto(p.message.data, p.bytesRead, c.data));
      var n := Wrap32(p.bytesRead + |c.data|);
      if n >= m.length then Complete(m) else Pending(Partial(m, n))
  }

  /** The header bytes that the accounting charges for a chunk of each format. */
  function Overhead(f: Format): u32 {
    match f
    case 0 => 12
    case 1 => 8
    case 2 => 4
    case _ => 1
  }

  /** The effect of one chunk on its chunk stream, and the bytes it is charged. */
  datatype LocalStep = LocalStep(local: Local, delivered: Option<Message>, cost: u32)

  function TakeChunk(size: u32, l: Local, b: Basic, s: Bytes): (r: Parsed<Chunk, Bytes>)
    ensures r.Ok? ==> |r.rest| <= |s|
  {
    var (h, r) :- TakeHeader(b.format, b.csid, l.state, s);
    var n := DataSize(h, Recall(h), l.partial, size);
    if n > MAX_CHUNK_SIZE then Fail(ChunkTooLarge(n)) else
      var (data, r) :- Take(r, n);
      Ok(Chunk(h, data), r)
  }

  function StepLocal(size: u32, l: Local, b: Basic, s: Bytes): (r: Parsed<LocalStep, Bytes>)
    requires SafeLocal(l)
    ensures r.Ok? ==> |r.rest| <= |s|
  {
    var (c, r) :- TakeChunk(size, l, b, s);
    var cost := Wrap32(|c.data| + Overhead(b.format));
    match Assemble(l.partial, c)
    case Pending(p) => Ok(LocalStep(Local(Recall(c.header), Some(p)), None, cost), r)
    case Complete(m) => Ok(LocalStep(Local(Recall(c.header), None), Some(m), cost), r)
  }

  /** Counting `n` bytes in, and acknowledging once a window is full. */
  function Account(r: Reader, n: u32): Reader {
    var received := Wrap32(r.received + n);
    if r.window > 0 && Wrap32(received - r.acked) >= r.window
    then r.(received := received, acked := received)
    else r.(received := received)
  }

  datatype Stepped = Stepped(reader: Reader, delivered: Option<Message>)

  /** One chunk. */
  function Step(r: Reader, s: Bytes): (p: Parsed<Stepped, Bytes>)
    requires Safe(r)
    ensures p.Ok? ==> |p.rest| < |s|
  {
    var (b, s1) :- TakeBasic(s);
    var (l, s2) :- StepLocal(r.size, LocalOf(r, b.csid), b, s1);
    Ok(Stepped(WithLocal(Account(r, l.cost), b.csid, l.local), l.delivered), s2)
  }
}
