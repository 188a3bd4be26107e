/** One message from a writer to a reader: the two states stay in step, and the message arrives. */
module ChunkTransport {
  import opened Wire
  import opened Chunks
  import opened ChunkReader

  // ----- Basic headers

  const LAST_WIRE_ID := 65599

  lemma BasicRoundTrip(f: Format, id: u32, k: Bytes)
    requires 2 <= id <= LAST_WIRE_ID
    ensures TakeBasic(BasicHeader(f, id) + k) == Ok(Basic(f, id), k)
  {
    var s := BasicHeader(f, id) + k;
    if id < 64 {
      assert s[1..] == k;
    } else if id < 320 {
      assert s[1..] == [id - 64] + k;
      assert s[1..][1..] == k;
    } else {
      var x := [(id - 64) % 0x100, (id - 64) / 0x100 % 0x100];
      assert s[1..] == x + k;
      TakeAppend(x, k);
    }
  }

  /** The chunk stream ids that survive the wire. */
  lemma BasicSurvivesIff(f: Format, id: u32)
    ensures (forall k: Bytes :: TakeBasic(BasicHeader(f, id) + k) == Ok(Basic(f, id), k)) <==> 2 <= id <= LAST_WIRE_ID
  {
    if 2 <= id <= LAST_WIRE_ID {
      forall k: Bytes ensures TakeBasic(BasicHeader(f, id) + k) == Ok(Basic(f, id), k) {
        BasicRoundTrip(f, id, k);
      }
    } else {
      assert BasicHeader(f, id) + [] == BasicHeader(f, id);
      assert TakeBasic(BasicHeader(f, id) + []) != Ok(Basic(f, id), []);
    }
  }

  // ----- Message headers

  /** What links the two memories of one chunk stream. The writer's timestamp is not linked: a Type 1 header
      carries no difference. A length of 0 is left by an empty message, which sends nothing. */
  predicate InStep(ws: StreamState, rs: StreamState) {
    && rs.delta == 0
    && rs.length < U24
    && (ws.length != 0 ==> ws.length == rs.length && ws.typ == rs.typ && ws.msid == rs.msid)
  }

  /** The reader's memory after the first chunk of a message. */
  function ReadBack(ws: StreamState, rs: StreamState, m: Message): StreamState {
    StreamState(if FormatOf(ws, m) == 0 then m.timestamp else rs.timestamp, m.length, m.typ, m.msid, 0)
  }

  /** The writer sends no extended timestamp with a Type 1 header, for the reader would not expect one. */
  predicate DeltaFits(ws: StreamState, m: Message) {
    FormatOf(ws, m) == 1 ==> TimeField(ws, m) < EXTENDED
  }

  function FirstHeader(ws: StreamState, m: Message): Header {
    MakeHeader(FormatOf(ws, m), m, TimeField(ws, m))
  }

  lemma FullHeaderRead(h: Header, st: StreamState, k: Bytes)
    requires h.format == 0 && h.length < U24 && h.timestamp <= EXTENDED
    requires (h.timestamp == EXTENDED ==> h.extended > 0) && (h.timestamp < EXTENDED ==> h.extended == 0)
    ensures var time := if h.extended > 0 then h.extended else h.timestamp;
            TakeHeader(0, h.csid, st, MessageHeader(h) + (ExtendedTimestamp(h) + k))
            == Ok(Header(0, h.csid, time, h.length, h.typ, h.msid, 0, h.extended), k)
  {
    hide Be24, Le32, Be32, FromBe24, FromLe32, FromBe32;
    var b := MessageHeader(h);
    var x := ExtendedTimestamp(h) + k;
    TakeAppend(b, x);
    assert b[..3] == Be24(h.timestamp);
    assert b[3..6] == Be24(h.length);
    assert b[6] == h.typ;
    assert b[7..] == Le32(h.msid);
    Be24RoundTrip(h.timestamp);
    Be24RoundTrip(h.length);
    Be32RoundTrip(h.msid);
    if h.extended > 0 {
      TakeWords(0, h.extended, 0, k);
    } else {
      assert x == k;
    }
  }

  lemma ShortHeaderRead(h: Header, st: StreamState, k: Bytes)
    requires h.format != 0 && h.length < U24 && h.delta == 0 && st.delta == 0
    ensures TakeHeader(h.format, h.csid, st, MessageHeader(h) + k)
            == Ok(Header(h.format, h.csid, st.timestamp,
                         if h.format == 1 then h.length else st.length,
                         if h.format == 1 then h.typ else st.typ,
                         st.msid, 0, 0), k)
  {
    hide Be24, FromBe24;
    var b := MessageHeader(h);
    Be24RoundTrip(0);
    Be24RoundTrip(h.length);
    if h.format == 1 {
      assert b[..3] == Be24(0) && b[3..6] == Be24(h.length) && b[6] == h.typ;
      TakeAppend(b, k);
    } else if h.format == 2 {
      TakeAppend(b, k);
    } else {
      assert b + k == k;
    }
  }

  /** The header of a message's first chunk, read by a reader in step. */
  lemma FirstHeaderRead(ws: StreamState, rs: StreamState, m: Message, k: Bytes)
    requires InStep(ws, rs) && 0 < m.length < U24 && DeltaFits(ws, m)
    ensures var h := FirstHeader(ws, m);
            var p := TakeHeader(h.format, m.csid, rs, MessageHeader(h) + (ExtendedTimestamp(h) + k));
            && p.Ok? && p.rest == k
            && p.value.csid == m.csid && p.value.format == h.format
            && Recall(p.value) == ReadBack(ws, rs, m)
  {
    hide TakeHeader, MessageHeader;
    var h := FirstHeader(ws, m);
    if h.format == 0 {
      FullHeaderRead(h, rs, k);
    } else {
      assert ExtendedTimestamp(h) + k == k;
      ShortHeaderRead(h, rs, k);
    }
  }

  // ----- Chunks on one chunk stream

  /** The message as the reader will deliver it. */
  function Arrived(st: StreamState, csid: u32, payload: Bytes): Message {
    Message(csid, st.msid, st.timestamp, st.typ, st.length, payload)
  }

  /** The reader's progress with `n` bytes of a payload in. */
  function Progress(st: StreamState, csid: u32, payload: Bytes, n: nat): Option<Partial>
    requires n <= |payload| < U24
  {
    if n == |payload| then None
    else Some(Partial(Arrived(st, csid, payload[..n] + Zeros(|payload| - n)), n))
  }

  function Delivery(st: StreamState, csid: u32, payload: Bytes, n: nat): Option<Message> {
    if n == |payload| then Some(Arrived(st, csid, payload)) else None
  }

  lemma CopyFirst(payload: Bytes, n: nat)
    requires n <= |payload|
    ensures CopyInto(Zeros(|payload|), 0, payload[..n]) == payload[..n] + Zeros(|payload| - n)
    ensures payload[..|payload|] + Zeros(0) == payload
  {
  }

  lemma CopyNext(payload: Bytes, b: nat, n: nat)
    requires b <= n <= |payload|
    ensures CopyInto(payload[..b] + Zeros(|payload| - b), b, payload[b..n]) == payload[..n] + Zeros(|payload| - n)
    ensures payload[..|payload|] + Zeros(0) == payload
  {
  }

  lemma TakeAll(d: Bytes)
    ensures Take(d, |d|) == Ok(d, [])
  {
    assert d[..|d|] == d && d[|d|..] == [];
  }

  /** The first chunk, which carries `n` bytes. */
  lemma FirstChunkRead(size: u32, ws: StreamState, rs: StreamState, m: Message, payload: Bytes, n: nat)
    requires SafeSize(size) && InStep(ws, rs) && 0 < m.length == |payload| < U24 && DeltaFits(ws, m)
    requires n == Min(|payload|, size)
    ensures var h := FirstHeader(ws, m);
            var st := ReadBack(ws, rs, m);
            StepLocal(size, Local(rs, None), Basic(h.format, m.csid),
                      MessageHeader(h) + (ExtendedTimestamp(h) + payload[..n]))
            == Ok(LocalStep(Local(st, Progress(st, m.csid, payload, n)), Delivery(st, m.csid, payload, n),
                            Wrap32(n + Overhead(h.format))), [])
  {
    hide TakeHeader, MessageHeader, ExtendedTimestamp, CopyInto, Zeros, FirstHeader;
    var h := FirstHeader(ws, m);
    var st := ReadBack(ws, rs, m);
    FirstHeaderRead(ws, rs, m, payload[..n]);
    var got := TakeHeader(h.format, m.csid, rs, MessageHeader(h) + (ExtendedTimestamp(h) + payload[..n])).value;
    TakeAll(payload[..n]);
    CopyFirst(payload, n);
    assert TakeChunk(size, Local(rs, None), Basic(h.format, m.csid),
                     MessageHeader(h) + (ExtendedTimestamp(h) + payload[..n]))
        == Ok(Chunk(got, payload[..n]), []);
  }

  /** A further chunk, which takes the payload from `b` bytes in to `n`. */
  lemma NextChunkRead(size: u32, st: StreamState, csid: u32, payload: Bytes, b: nat, n: nat)
    requires SafeSize(size) && st.delta == 0 && 0 < st.length == |payload| < U24
    requires 0 < b < |payload| && n == b + Min(|payload| - b, size)
    ensures StepLocal(size, Local(st, Progress(st, csid, payload, b)), Basic(3, csid), payload[b..n])
            == Ok(LocalStep(Local(st, Progress(st, csid, payload, n)), Delivery(st, csid, payload, n),
                            Wrap32(n - b + 1)), [])
  {
    hide CopyInto, Zeros;
    var d := payload[b..n];
    TakeAll(d);
    CopyNext(payload, b, n);
  }

  // ----- Whole messages

  /** The two readers agree on every chunk stream but one. */
  ghost predicate SameElsewhere(r: Reader, r': Reader, id: u32) {
    && r'.size == r.size && r'.window == r.window
    && forall j: u32 | j != id :: LocalOf(r', j) == LocalOf(r, j)
  }

  lemma WithLocalIs(r: Reader, id: u32, l: Local)
    ensures LocalOf(WithLocal(r, id, l), id) == l
    ensures SameElsewhere(r, WithLocal(r, id, l), id)
  {
  }

  /** One chunk, from its effect on its chunk stream. */
  lemma StepOf(r: Reader, f: Format, id: u32, body: Bytes, step: LocalStep)
    requires Safe(r) && 2 <= id <= LAST_WIRE_ID
    requires StepLocal(r.size, LocalOf(r, id), Basic(f, id), body) == Ok(step, [])
    ensures var p := Step(r, BasicHeader(f, id) + body);
            && p.Ok? && p.rest == [] && p.value.delivered == step.delivered
            && LocalOf(p.value.reader, id) == step.local
            && SameElsewhere(r, p.value.reader, id) && Safe(p.value.reader)
  {
    hide TakeBasic, BasicHeader, StepLocal, WithLocal, Safe;
    BasicRoundTrip(f, id, body);
    StepIsSafe(r, BasicHeader(f, id) + body);
    WithLocalIs(Account(r, step.cost), id, step.local);
  }

  /** The run over the chunks from `b` bytes on ends with the message, and changes nothing elsewhere. */
  lemma {:induction false} ContinuationsArrive(r: Reader, m: Message, st: StreamState, payload: Bytes, b: nat)
    requires Safe(r) && 2 <= m.csid <= LAST_WIRE_ID
    requires st.delta == 0 && 0 < st.length == |payload| < U24 && 0 < b < |payload|
    requires LocalOf(r, m.csid) == Local(st, Progress(st, m.csid, payload, b))
    ensures var run := RunChunks(r, Wires(Continuations(m, payload[b..], r.size)));
            && run.Ran? && DeliversLast(run.deliveries, Arrived(st, m.csid, payload))
            && LocalOf(run.reader, m.csid) == Local(st, None)
            && SameElsewhere(r, run.reader, m.csid) && Safe(run.reader)
    decreases |payload| - b
  {
    hide StepLocal, Step, Safe, BasicHeader, LocalOf, Arrived, Zeros;
    var n := b + Min(|payload| - b, r.size);
    var d := payload[b..n];
    var c := Chunk(MakeHeader(3, m, 0), d);
    SafeParts(r, m.csid);
    assert payload[b..][..n - b] == d && payload[b..][n - b..] == payload[n..];
    var tail := Continuations(m, payload[n..], r.size);
    assert Continuations(m, payload[b..], r.size) == [c] + tail;
    assert WireOf(c) == BasicHeader(3, m.csid) + d by {
      assert [] + ([] + d) == d;
    }
    var ws := Wires([c] + tail);
    assert ([c] + tail)[1..] == tail;
    assert ws == [WireOf(c)] + Wires(tail);
    assert ws[1..] == Wires(tail);
    NextChunkRead(r.size, st, m.csid, payload, b, n);
    StepOf(r, 3, m.csid, d, StepLocal(r.size, LocalOf(r, m.csid), Basic(3, m.csid), d).value);
    var r' := Step(r, WireOf(c)).value.reader;
    if n == |payload| {
      assert payload[n..] == [];
    } else {
      ContinuationsArrive(r', m, st, payload, n);
      DeliversLater(RunChunks(r', Wires(tail)).deliveries, Arrived(st, m.csid, payload));
    }
  }

  lemma SafeParts(r: Reader, id: u32)
    requires Safe(r)
    ensures SafeSize(r.size) && SafeLocal(LocalOf(r, id))
  {
  }

  lemma DeliversLater(ds: seq<Option<Message>>, m: Message)
    requires DeliversLast(ds, m)
    ensures DeliversLast([None] + ds, m)
  {
  }

  /** The two ends between messages. */
  ghost predicate Sync(w: Writer, r: Reader) {
    && Safe(r)
    && w.size == r.size
    && FIRST_CHUNK_ID <= w.nextId <= LAST_CHUNK_ID
    && forall id: u32 :: LocalOf(r, id).partial == None && InStep(StateOf(w.states, id), LocalOf(r, id).state)
  }

  /** Messages that the wire can carry: their length is the payload's, it has 24 bits, the chunk stream id is
      chosen by the writer or one that survives, and no Type 1 header would need an extended timestamp. */
  predicate Legal(w: Writer, m: Message) {
    && (m.length == 0 || m.length == |m.data|)
    && |m.data| < U24
    && (m.csid == 0 || 2 <= m.csid <= LAST_WIRE_ID)
    && (m.data != [] ==> DeltaFits(StateOf(w.states, Effective(w, m).csid), Effective(w, m)))
  }

  /** The message as it arrives: complete but for its timestamp, which is that of the last full header. */
  function ArrivedFrom(w: Writer, r: Reader, m: Message): Message {
    var e := Effective(w, m);
    Arrived(ReadBack(StateOf(w.states, e.csid), StateOf(r.states, e.csid), e), e.csid, m.data)
  }

  /** A message's chunks, read by a reader in step, deliver it with the last of them and keep the ends in step. */
  lemma MessageArrives(w: Writer, r: Reader, m: Message)
    requires Sync(w, r) && Legal(w, m) && m.data != []
    ensures var run := RunChunks(r, Wires(ChunksOf(w, m)));
            && run.Ran? && DeliversLast(run.deliveries, ArrivedFrom(w, r, m))
            && Sync(AfterWriting(w, m), run.reader)
            && SameElsewhere(r, run.reader, Effective(w, m).csid)
            && StateOf(run.reader.states, Effective(w, m).csid).timestamp == ArrivedFrom(w, r, m).timestamp
  {
    hide StepLocal, Step, Safe, BasicHeader, FirstHeader, MessageHeader, ExtendedTimestamp, Zeros, Legal, Sync,
      Effective, CreateChunks, InStep, DeltaFits, ReadBack, FormatOf, TimeField, MakeHeader;
    var e := Effective(w, m);
    var ws, rs := StateOf(w.states, e.csid), StateOf(r.states, e.csid);
    var st := ReadBack(ws, rs, e);
    var n := Min(|m.data|, w.size);
    var h := FirstHeader(ws, e);
    LegalMessage(w, r, m);
    var tail := Continuations(e, m.data[n..], w.size);
    FirstOf(w, m);
    FirstChunkRead(r.size, ws, rs, e, m.data, n);
    var body := MessageHeader(h) + (ExtendedTimestamp(h) + m.data[..n]);
    StepOf(r, h.format, e.csid, body, StepLocal(r.size, LocalOf(r, e.csid), Basic(h.format, e.csid), body).value);
    var r1 := Step(r, BasicHeader(h.format, e.csid) + body).value.reader;
    var run := RunChunks(r, Wires(ChunksOf(w, m)));
    if n == |m.data| {
      assert m.data[n..] == [];
      assert tail == [];
    } else {
      ContinuationsArrive(r1, e, st, m.data, n);
      DeliversLater(RunChunks(r1, Wires(tail)).deliveries, ArrivedFrom(w, r, m));
    }
    SyncAfter(w, r, m, run.reader);
  }

  lemma LegalMessage(w: Writer, r: Reader, m: Message)
    requires Sync(w, r) && Legal(w, m) && m.data != []
    ensures var e := Effective(w, m);
            && 2 <= e.csid <= LAST_WIRE_ID && 0 < e.length == |m.data| < U24 && e.data == m.data
            && SafeSize(r.size) && Safe(r) && w.size == r.size
            && LocalOf(r, e.csid) == Local(StateOf(r.states, e.csid), None)
            && InStep(StateOf(w.states, e.csid), StateOf(r.states, e.csid))
            && DeltaFits(StateOf(w.states, e.csid), e)
            && ReadBack(StateOf(w.states, e.csid), StateOf(r.states, e.csid), e).length == |m.data|
            && ReadBack(StateOf(w.states, e.csid), StateOf(r.states, e.csid), e).delta == 0
  {
    var e := Effective(w, m);
    assert LocalOf(r, e.csid).partial == None;
  }

  /** The first chunk of a message and the others. */
  lemma FirstOf(w: Writer, m: Message)
    requires 0 < w.size && 0 < |m.data| < U24
    ensures var e := Effective(w, m);
            var n := Min(|m.data|, w.size);
            var h := FirstHeader(StateOf(w.states, e.csid), e);
            var ws := Wires(ChunksOf(w, m));
            && ws != [] && h.csid == e.csid && h.format == FormatOf(StateOf(w.states, e.csid), e)
            && ws[0] == BasicHeader(h.format, e.csid) + (MessageHeader(h) + (ExtendedTimestamp(h) + m.data[..n]))
            && ws[1..] == Wires(Continuations(e, m.data[n..], w.size))
  {
    hide BasicHeader, MessageHeader, ExtendedTimestamp;
    assert m.data[..|m.data|] == m.data;
    var cs := ChunksOf(w, m);
    assert cs[1..] == Continuations(Effective(w, m), m.data[Min(|m.data|, w.size)..], w.size);
  }

  lemma SyncAfter(w: Writer, r: Reader, m: Message, r': Reader)
    requires Sync(w, r) && Legal(w, m) && m.data != [] && Safe(r')
    requires var e := Effective(w, m);
             && LocalOf(r', e.csid) == Local(ReadBack(StateOf(w.states, e.csid), StateOf(r.states, e.csid), e), None)
             && SameElsewhere(r, r', e.csid)
    ensures Sync(AfterWriting(w, m), r')
    ensures StateOf(r'.states, Effective(w, m).csid).timestamp == ArrivedFrom(w, r, m).timestamp
  {
    hide Safe, FormatOf;
    var e := Effective(w, m);
    var w' := AfterWriting(w, m);
    forall id: u32 ensures LocalOf(r', id).partial == None && InStep(StateOf(w'.states, id), LocalOf(r', id).state) {
      if id != e.csid {
        assert LocalOf(r', id) == LocalOf(r, id);
        assert StateOf(w'.states, id) == StateOf(w.states, id);
      }
    }
  }

  /** A message without payload sends nothing, and still the ends stay in step. */
  lemma EmptyMessage(w: Writer, r: Reader, m: Message)
    requires Sync(w, r) && Legal(w, m) && m.data == []
    ensures ChunksOf(w, m) == [] && Sync(AfterWriting(w, m), r)
  {
    hide Safe, FormatOf;
    var w' := AfterWriting(w, m);
    forall id: u32 ensures InStep(StateOf(w'.states, id), LocalOf(r, id).state) {
      assert InStep(StateOf(w.states, id), LocalOf(r, id).state);
    }
  }
}
