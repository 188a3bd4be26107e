/** Whole runs over one connection: delivery, chunk size negotiation, timestamps and acknowledgements. */
module ChunkSession {
  import opened Wire
  import opened Chunks
  import opened ChunkReader
  import opened ChunkTransport

  const SET_CHUNK_SIZE: byte := 1

  /** Setting a chunk size; 0 and sizes above the maximum are refused. */
  function Resize(size: u32, n: u32): u32 {
    if n > MAX_CHUNK_SIZE || n == 0 then size else n
  }

  /** The chunk size after a message: where the ends negotiate, a SetChunkSize message of at least four bytes
      sets it. The writer does so after sending the message, the reader after receiving it. */
  function Settle(negotiate: bool, size: u32, m: Message): u32 {
    if negotiate && m.typ == SET_CHUNK_SIZE && |m.data| >= 4 then Resize(size, FromBe32(m.data[..4])) else size
  }

  // ----- A run of the writer

  datatype Sent = Sent(bytes: Bytes, writer: Writer)

  function WriteOne(negotiate: bool, w: Writer, m: Message): (sent: Sent)
    requires w.size > 0
    ensures sent.writer.size > 0
  {
    var w' := AfterWriting(w, m);
    Sent(Flatten(Wires(ChunksOf(w, m))), w'.(size := Settle(negotiate, w.size, m)))
  }

  function WriteAll(negotiate: bool, w: Writer, ms: seq<Message>): Sent
    requires w.size > 0
    decreases |ms|
  {
    if ms == [] then Sent([], w) else
      var head := WriteOne(negotiate, w, ms[0]);
      var tail := WriteAll(negotiate, head.writer, ms[1..]);
      Sent(head.bytes + tail.bytes, tail.writer)
  }

  lemma SendOne(out: Bytes, w: Writer, ms: seq<Message>)
    requires w.size > 0 && ms != []
    ensures var sent := WriteOne(true, w, ms[0]);
            out + WriteAll(true, w, ms).bytes == (out + sent.bytes) + WriteAll(true, sent.writer, ms[1..]).bytes
  {
    hide WriteOne;
    var sent := WriteOne(true, w, ms[0]);
    Concat(out, sent.bytes, WriteAll(true, sent.writer, ms[1..]).bytes);
  }

  predicate LegalRun(negotiate: bool, w: Writer, ms: seq<Message>)
    requires w.size > 0
    decreases |ms|
  {
    ms == [] || (Legal(w, ms[0]) && LegalRun(negotiate, WriteOne(negotiate, w, ms[0]).writer, ms[1..]))
  }

  /** The messages as written, without those that have no payload. */
  function Written(negotiate: bool, w: Writer, ms: seq<Message>): seq<Message>
    requires w.size > 0
    decreases |ms|
  {
    if ms == [] then [] else
      (if ms[0].data == [] then [] else [Effective(w, ms[0])])
      + Written(negotiate, WriteOne(negotiate, w, ms[0]).writer, ms[1..])
  }

  // ----- A run of the reader

  function ReadOne(negotiate: bool, r: Reader, s: Bytes): (p: Parsed<Received, Bytes>)
    requires Safe(r)
  {
    var (got, rest) :- ReadMessage(r, s);
    Ok(Received(got.reader.(size := Settle(negotiate, got.reader.size, got.message)), got.message), rest)
  }

  lemma ReadOneIsSafe(negotiate: bool, r: Reader, s: Bytes)
    requires Safe(r)
    ensures ReadOne(negotiate, r, s).Ok? ==> Safe(ReadOne(negotiate, r, s).value.reader)
  {
    ReadMessageIsSafe(r, s);
  }

  datatype ReceivedAll = ReceivedAll(reader: Reader, messages: seq<Message>)

  function ReadAll(negotiate: bool, r: Reader, s: Bytes, n: nat): Parsed<ReceivedAll, Bytes>
    requires Safe(r)
    decreases n
  {
    if n == 0 then Ok(ReceivedAll(r, []), s) else
      var (got, rest) :- ReadOne(negotiate, r, s);
      ReadOneIsSafe(negotiate, r, s);
      var (more, rest) :- ReadAll(negotiate, got.reader, rest, n - 1);
      Ok(ReceivedAll(more.reader, [got.message] + more.messages), rest)
  }

  lemma {:induction false} ReadAllIsSafe(negotiate: bool, r: Reader, s: Bytes, n: nat)
    requires Safe(r)
    ensures ReadAll(negotiate, r, s, n).Ok? ==> Safe(ReadAll(negotiate, r, s, n).value.reader)
    decreases n
  {
    hide ReadOne, Safe;
    if n > 0 && ReadOne(negotiate, r, s).Ok? {
      var p := ReadOne(negotiate, r, s);
      ReadOneIsSafe(negotiate, r, s);
      ReadAllIsSafe(negotiate, p.value.reader, p.rest, n - 1);
    }
  }

  /** One message more. */
  lemma {:induction false} ReadAllMore(negotiate: bool, r: Reader, s: Bytes, n: nat)
    requires Safe(r) && ReadAll(negotiate, r, s, n).Ok? && Safe(ReadAll(negotiate, r, s, n).value.reader)
    ensures var p := ReadAll(negotiate, r, s, n);
            ReadAll(negotiate, r, s, n + 1)
            == match ReadOne(negotiate, p.value.reader, p.rest)
               case Ok(got, rest) => Ok(ReceivedAll(got.reader, p.value.messages + [got.message]), rest)
               case Fail(e) => Fail(e)
    decreases n
  {
    hide ReadOne, Safe;
    var first := ReadOne(negotiate, r, s);
    if first.Ok? {
      ReadOneIsSafe(negotiate, r, s);
    }
    if n == 0 {
      if first.Ok? {
        assert [first.value.message] + [] == [] + [first.value.message];
      }
    } else {
      ReadAllMore(negotiate, first.value.reader, first.rest, n - 1);
      var p := ReadAll(negotiate, first.value.reader, first.rest, n - 1);
      var last := ReadOne(negotiate, p.value.reader, p.rest);
      if last.Ok? {
        assert [first.value.message] + (p.value.messages + [last.value.message])
            == ([first.value.message] + p.value.messages) + [last.value.message];
      }
    }
  }

  /** The messages that a run over chunks completed. */
  function Messages(ds: seq<Option<Message>>): seq<Message> {
    if ds == [] then [] else (if ds[0].Some? then [ds[0].value] else []) + Messages(ds[1..])
  }

  lemma MessageRead(r: Reader, w: Bytes, k: Bytes)
    requires Safe(r) && Step(r, w).Ok? && Step(r, w).rest == []
    ensures var step := Step(r, w).value;
            && Safe(step.reader)
            && ReadMessage(r, w + k) == match step.delivered
                                        case Some(m) => Ok(Received(step.reader, m), k)
                                        case None => ReadMessage(step.reader, k)
  {
    hide Step, Safe;
    StepIsSafe(r, w);
    StepExtends(r, w, k);
    assert [] + k == k;
  }

  /** Where the first message is read alike, so are the others. */
  lemma ReadAllAlike(r: Reader, s: Bytes, r': Reader, s': Bytes, n: nat)
    requires Safe(r) && Safe(r') && n > 0 && ReadMessage(r, s) == ReadMessage(r', s')
    ensures ReadAll(false, r, s, n) == ReadAll(false, r', s', n)
  {
    hide ReadMessage, Safe;
  }

  lemma ReadAllFirst(r: Reader, s: Bytes, got: Received, rest: Bytes, n: nat)
    requires Safe(r) && Safe(got.reader) && ReadMessage(r, s) == Ok(got, rest)
    requires ReadAll(false, got.reader, rest, n).Ok?
    ensures var p := ReadAll(false, got.reader, rest, n);
            ReadAll(false, r, s, n + 1) == Ok(ReceivedAll(p.value.reader, [got.message] + p.value.messages), p.rest)
  {
    hide ReadMessage, Safe;
    assert ReadOne(false, r, s) == Ok(got, rest);
  }

  /** Reading messages from a byte stream that starts with chunks gives exactly the messages that running over the
      chunks completes, in order; and if the last chunk completes one, exactly the chunks are consumed. */
  lemma {:induction false} StreamRead(r: Reader, ws: seq<Bytes>, k: Bytes)
    requires Safe(r) && RunChunks(r, ws).Ran?
    ensures var run := RunChunks(r, ws);
            var p := ReadAll(false, r, Flatten(ws) + k, |Messages(run.deliveries)|);
            && p.Ok? && p.value.messages == Messages(run.deliveries)
            && (ws != [] && run.deliveries[|ws| - 1].Some? ==> p.rest == k && p.value.reader == run.reader)
    decreases |ws|
  {
    hide Step, Safe, ReadMessage, ReadAll;
    if ws == [] {
      NoneRead(r, Flatten(ws) + k);
    } else {
      var step := Step(r, ws[0]).value;
      var rest := Flatten(ws[1..]) + k;
      Concat(ws[0], Flatten(ws[1..]), k);
      MessageRead(r, ws[0], rest);
      var run := RunChunks(step.reader, ws[1..]);
      var ms := Messages(run.deliveries);
      FirstDelivery(step.delivered, run.deliveries);
      StreamRead(step.reader, ws[1..], k);
      NoneRead(step.reader, rest);
      if step.delivered.Some? {
        ReadAllFirst(r, ws[0] + rest, Received(step.reader, step.delivered.value), rest, |ms|);
        if |ws| == 1 {
          assert ws[1..] == [] && Flatten(ws[1..]) + k == k;
        }
      } else if ms != [] {
        ReadAllAlike(r, ws[0] + rest, step.reader, rest, |ms|);
        LaterDelivery(step.delivered, run.deliveries);
      } else {
        NoneRead(r, ws[0] + rest);
        LaterDelivery(step.delivered, run.deliveries);
      }
    }
  }

  lemma NoneRead(r: Reader, s: Bytes)
    requires Safe(r)
    ensures ReadAll(false, r, s, 0) == Ok(ReceivedAll(r, []), s)
  {
    hide Safe;
  }

  lemma FirstDelivery(d: Option<Message>, ds: seq<Option<Message>>)
    ensures Messages([d] + ds) == (if d.Some? then [d.value] else []) + Messages(ds)
    ensures ds != [] ==> ([d] + ds)[|ds|] == ds[|ds| - 1]
  {
    assert ([d] + ds)[1..] == ds;
  }

  lemma LaterDelivery(d: Option<Message>, ds: seq<Option<Message>>)
    requires d.None?
    ensures ([d] + ds)[|ds|].Some? ==> ds != [] && Messages(ds) != []
  {
    MessagesEnd(ds);
  }

  lemma {:induction false} MessagesEnd(ds: seq<Option<Message>>)
    ensures ds != [] && ds[|ds| - 1].Some? ==> Messages(ds) != []
    decreases |ds|
  {
    if |ds| > 1 {
      MessagesEnd(ds[1..]);
    }
  }

  /** The `n` messages read are all there are. */
  ghost predicate Exhausts(negotiate: bool, r: Reader, s: Bytes, n: nat)
    requires Safe(r)
  {
    var p := ReadAll(negotiate, r, s, n);
    ReadAllIsSafe(negotiate, r, s, n);
    p.Ok? && ReadOne(negotiate, p.value.reader, p.rest).Fail?
  }

  lemma {:induction false} ExhaustsOnce(negotiate: bool, r: Reader, s: Bytes, m: nat, n: nat)
    requires Safe(r) && Exhausts(negotiate, r, s, m) && Exhausts(negotiate, r, s, n)
    ensures m == n
    decreases m + n
  {
    hide ReadOne, Safe;
    ReadOneIsSafe(negotiate, r, s);
    if m > 0 && n > 0 {
      var p := ReadOne(negotiate, r, s);
      ExhaustsOnce(negotiate, p.value.reader, p.rest, m - 1, n - 1);
    }
  }

  lemma NothingMore(negotiate: bool, r: Reader)
    requires Safe(r)
    ensures ReadOne(negotiate, r, []) == Fail(Truncated)
  {
  }

  // ----- Timestamps

  /** For each chunk stream, the timestamp of the most recent Type 0 header on it. */
  type Anchors = map<u32, u32>

  function AnchorOf(a: Anchors, id: u32): u32 {
    if id in a then a[id] else 0
  }

  /** The format of the first header of a message. */
  function FormatSent(w: Writer, m: Message): Format {
    FormatOf(StateOf(w.states, Effective(w, m).csid), Effective(w, m))
  }

  function NextAnchors(w: Writer, a: Anchors, m: Message): Anchors {
    if m.data != [] && FormatSent(w, m) == 0 then a[Effective(w, m).csid := m.timestamp] else a
  }

  /** The messages written, each with the timestamp of the most recent Type 0 header on its chunk stream. */
  function Stamped(negotiate: bool, w: Writer, a: Anchors, ms: seq<Message>): seq<Message>
    requires w.size > 0
    decreases |ms|
  {
    if ms == [] then [] else
      var e := Effective(w, ms[0]);
      var a' := NextAnchors(w, a, ms[0]);
      (if e.data == [] then [] else [e.(timestamp := AnchorOf(a', e.csid))])
      + Stamped(negotiate, WriteOne(negotiate, w, ms[0]).writer, a', ms[1..])
  }

  ghost predicate Anchored(a: Anchors, r: Reader) {
    forall id: u32 :: StateOf(r.states, id).timestamp == AnchorOf(a, id)
  }

  // ----- Delivery

  lemma SettleKeeps(negotiate: bool, w: Writer, r: Reader, a: Anchors, m: Message, got: Message)
    requires Sync(w, r) && Anchored(a, r) && got.typ == m.typ && got.data == m.data
    ensures Sync(w.(size := Settle(negotiate, w.size, m)), r.(size := Settle(negotiate, r.size, got)))
    ensures Anchored(a, r.(size := Settle(negotiate, r.size, got)))
  {
    hide InStep;
    var w', r' := w.(size := Settle(negotiate, w.size, m)), r.(size := Settle(negotiate, r.size, got));
    forall id: u32 ensures LocalOf(r', id) == LocalOf(r, id) && StateOf(w'.states, id) == StateOf(w.states, id) {
    }
  }

  lemma AnchorsFollow(w: Writer, r: Reader, a: Anchors, m: Message, r': Reader)
    requires Sync(w, r) && Legal(w, m) && m.data != [] && Anchored(a, r)
    requires SameElsewhere(r, r', Effective(w, m).csid)
    requires StateOf(r'.states, Effective(w, m).csid).timestamp == ArrivedFrom(w, r, m).timestamp
    ensures Anchored(NextAnchors(w, a, m), r')
    ensures ArrivedFrom(w, r, m) == Effective(w, m).(timestamp := AnchorOf(NextAnchors(w, a, m), Effective(w, m).csid))
  {
    hide FormatOf, Sync, Safe;
    LegalMessage(w, r, m);
    var id := Effective(w, m).csid;
    var a' := NextAnchors(w, a, m);
    forall j: u32 ensures StateOf(r'.states, j).timestamp == AnchorOf(a', j) {
      if j != id {
        assert LocalOf(r', j) == LocalOf(r, j);
      }
    }
  }

  /** One message through the stream: it arrives with the anchor's timestamp, exactly its bytes are consumed,
      and the ends are in step again with the same chunk size. */
  lemma OneArrives(negotiate: bool, w: Writer, r: Reader, a: Anchors, m: Message, k: Bytes)
    requires Sync(w, r) && Legal(w, m) && m.data != [] && Anchored(a, r)
    ensures var sent := WriteOne(negotiate, w, m);
            var p := ReadOne(negotiate, r, sent.bytes + k);
            var a' := NextAnchors(w, a, m);
            && p.Ok? && p.rest == k
            && p.value.message == Effective(w, m).(timestamp := AnchorOf(a', Effective(w, m).csid))
            && Sync(sent.writer, p.value.reader) && Anchored(a', p.value.reader)
  {
    hide ChunksOf, Wires, RunChunks, ReadMessage, Legal, Sync, Anchored, NextAnchors, Settle, Safe;
    SyncIsSafe(w, r);
    MessageArrives(w, r, m);
    var ws := Wires(ChunksOf(w, m));
    var r' := RunChunks(r, ws).reader;
    ReadRun(r, ws, ArrivedFrom(w, r, m), k);
    AnchorsFollow(w, r, a, m, r');
    SettleKeeps(negotiate, AfterWriting(w, m), r', NextAnchors(w, a, m), m, ArrivedFrom(w, r, m));
  }

  lemma SyncIsSafe(w: Writer, r: Reader)
    requires Sync(w, r)
    ensures Safe(r) && w.size > 0
  {
  }

  lemma EmptyOne(negotiate: bool, w: Writer, r: Reader, a: Anchors, m: Message)
    requires Sync(w, r) && Legal(w, m) && m.data == [] && Anchored(a, r)
    ensures WriteOne(negotiate, w, m).bytes == [] && Sync(WriteOne(negotiate, w, m).writer, r)
    ensures NextAnchors(w, a, m) == a
  {
    hide Sync, Legal;
    SyncIsSafe(w, r);
    EmptyMessage(w, r, m);
  }

  /** Every legal run, with or without negotiated chunk sizes and from any point where the ends are in step:
      the reader receives exactly the messages written, in order, and consumes exactly the bytes written;
      each carries the timestamp of the most recent Type 0 header on its chunk stream; and the ends are in
      step again, with equal chunk sizes. Since any start of a run is a run, that is so at every message
      boundary. */
  lemma {:induction false} Transport(negotiate: bool, w: Writer, r: Reader, a: Anchors, ms: seq<Message>, k: Bytes)
    requires Sync(w, r) && Anchored(a, r) && w.size > 0 && LegalRun(negotiate, w, ms)
    ensures Safe(r)
    ensures var sent := WriteAll(negotiate, w, ms);
            var want := Stamped(negotiate, w, a, ms);
            var p := ReadAll(negotiate, r, sent.bytes + k, |want|);
            && p.Ok? && p.rest == k && p.value.messages == want && Sync(sent.writer, p.value.reader)
    decreases |ms|
  {
    hide Sync, Anchored, Legal, WriteOne, ReadOne, Safe, NextAnchors, Effective;
    SyncIsSafe(w, r);
    if ms == [] {
      assert [] + k == k;
    } else {
      var m, tail := ms[0], ms[1..];
      var head := WriteOne(negotiate, w, m);
      var a' := NextAnchors(w, a, m);
      var rest := WriteAll(negotiate, head.writer, tail).bytes;
      assert Effective(w, m).data == m.data by { EffectiveData(w, m); }
      Concat(head.bytes, rest, k);
      if m.data == [] {
        EmptyOne(negotiate, w, r, a, m);
        Transport(negotiate, head.writer, r, a, tail, k);
        assert head.bytes + (rest + k) == rest + k;
        assert [] + Stamped(negotiate, head.writer, a', tail) == Stamped(negotiate, head.writer, a', tail);
      } else {
        OneArrives(negotiate, w, r, a, m, rest + k);
        var r' := ReadOne(negotiate, r, head.bytes + (rest + k)).value.reader;
        Transport(negotiate, head.writer, r', a', tail, k);
      }
    }
  }

  lemma EffectiveData(w: Writer, m: Message)
    ensures Effective(w, m).data == m.data
  {
  }

  /** The messages received are those written, except perhaps in their timestamps. */
  lemma {:induction false} StampedIsWritten(negotiate: bool, w: Writer, a: Anchors, ms: seq<Message>)
    requires w.size > 0
    ensures var got, sent := Stamped(negotiate, w, a, ms), Written(negotiate, w, ms);
            && |got| == |sent|
            && forall i | 0 <= i < |got| :: got[i] == sent[i].(timestamp := got[i].timestamp)
    decreases |ms|
  {
    hide WriteOne, NextAnchors;
    if ms != [] {
      StampedIsWritten(negotiate, WriteOne(negotiate, w, ms[0]).writer, NextAnchors(w, a, ms[0]), ms[1..]);
    }
  }

  lemma FreshInStep()
    ensures Sync(FRESH_WRITER, FRESH_READER) && Anchored(map[], FRESH_READER)
  {
  }

  // ----- Runs told from the messages alone

  predicate Carried(ms: seq<Message>) {
    forall i | 0 <= i < |ms| :: |ms[i].data| < 0x100_0000
  }

  /** The messages that have a payload, each with its length, and with the next chunk stream id where the caller gave
      none: 2, 3, ..., 65535, and again from 2. */
  function Completed(next: u32, ms: seq<Message>): seq<Message>
    requires 2 <= next <= 65535 && Carried(ms)
    decreases |ms|
  {
    if ms == [] then [] else
      var m := ms[0];
      var id := if m.csid == 0 then next else m.csid;
      (if m.data == [] then [] else [Message(id, m.msid, m.timestamp, m.typ, |m.data|, m.data)])
      + Completed(if m.csid != 0 then next else if next == 65535 then 2 else next + 1, ms[1..])
  }

  lemma {:induction false} LegalIsCarried(negotiate: bool, w: Writer, ms: seq<Message>)
    requires w.size > 0 && LegalRun(negotiate, w, ms)
    ensures Carried(ms)
    decreases |ms|
  {
    hide WriteOne;
    if ms != [] {
      LegalIsCarried(negotiate, WriteOne(negotiate, w, ms[0]).writer, ms[1..]);
      assert forall i | 1 <= i < |ms| :: ms[i] == ms[1..][i - 1];
    }
  }

  lemma {:induction false} WrittenIsCompleted(negotiate: bool, w: Writer, ms: seq<Message>)
    requires w.size > 0 && LegalRun(negotiate, w, ms) && 2 <= w.nextId <= 65535 && Carried(ms)
    ensures Written(negotiate, w, ms) == Completed(w.nextId, ms)
    decreases |ms|
  {
    hide ChunksOf, Wires, Flatten, Settle, DeltaFits;
    if ms != [] {
      var w' := WriteOne(negotiate, w, ms[0]).writer;
      assert Carried(ms[1..]);
      WrittenIsCompleted(negotiate, w', ms[1..]);
    }
  }

  /** The size that a message chooses: a SetChunkSize message is one of type 1 with at least four bytes, and legal sizes
      are 1 to 65536. */
  predicate Chooses(m: Message) {
    m.typ == 1 && |m.data| >= 4 && 1 <= Choice(m.data) <= 65536
  }

  function Choice(data: Bytes): nat
    requires |data| >= 4
  {
    data[0] as int * 16777216 + data[1] as int * 65536 + data[2] as int * 256 + data[3]
  }

  /** The last legal size chosen, or `size` if there is none. */
  function LastChoice(size: u32, ms: seq<Message>): u32
    decreases |ms|
  {
    if ms == [] then size
    else if Chooses(ms[|ms| - 1]) then Choice(ms[|ms| - 1].data)
    else LastChoice(size, ms[..|ms| - 1])
  }

  lemma SettleTold(size: u32, m: Message)
    ensures Settle(true, size, m) == if Chooses(m) then Choice(m.data) else size
    ensures Settle(false, size, m) == size
  {
  }

  lemma {:induction false} LastChoiceFront(size: u32, m: Message, ms: seq<Message>)
    ensures LastChoice(size, [m] + ms) == LastChoice(if Chooses(m) then Choice(m.data) else size, ms)
    decreases |ms|
  {
    hide Chooses, Choice;
    var all := [m] + ms;
    if ms == [] {
      assert all[..|all| - 1] == [];
    } else {
      assert all[|all| - 1] == ms[|ms| - 1];
      assert all[..|all| - 1] == [m] + ms[..|ms| - 1];
      LastChoiceFront(size, m, ms[..|ms| - 1]);
    }
  }

  /** After a run the writer's chunk size is the last legal one it sent, told from the messages alone. */
  lemma {:induction false} SizeTold(negotiate: bool, w: Writer, ms: seq<Message>)
    requires w.size > 0
    ensures WriteAll(negotiate, w, ms).writer.size == if negotiate then LastChoice(w.size, ms) else w.size
    decreases |ms|
  {
    hide Settle, Chooses, Choice, ChunksOf, Wires, Flatten, LastChoice;
    if ms == [] {
      assert LastChoice(w.size, ms) == w.size by { NoChoice(w.size); }
    } else {
      SettleTold(w.size, ms[0]);
      SizeTold(negotiate, WriteOne(negotiate, w, ms[0]).writer, ms[1..]);
      LastChoiceFront(w.size, ms[0], ms[1..]);
      assert [ms[0]] + ms[1..] == ms;
    }
  }

  lemma NoChoice(size: u32)
    ensures LastChoice(size, []) == size
  {
  }

  /** A fresh reader fed the bytes of a fresh writer receives the messages, completed, and ends with the last legal
      chunk size among them, as the writer does. */
  lemma FreshTransport(negotiate: bool, ms: seq<Message>)
    requires LegalRun(negotiate, FRESH_WRITER, ms)
    ensures Safe(FRESH_READER) && Carried(ms)
    ensures var sent, want := WriteAll(negotiate, FRESH_WRITER, ms), Completed(2, ms);
            var p := ReadAll(negotiate, FRESH_READER, sent.bytes, |want|);
            && p.Ok? && p.rest == [] && |p.value.messages| == |want|
            && (forall i | 0 <= i < |want| ::
                  p.value.messages[i] == want[i].(timestamp := p.value.messages[i].timestamp))
            && p.value.reader.size == sent.writer.size == if negotiate then LastChoice(128, ms) else 128
  {
    hide WriteAll, ReadAll, Written, Stamped, Completed, LastChoice;
    LegalIsCarried(negotiate, FRESH_WRITER, ms);
    WrittenIsCompleted(negotiate, FRESH_WRITER, ms);
    SizeTold(negotiate, FRESH_WRITER, ms);
    FreshInStep();
    Transport(negotiate, FRESH_WRITER, FRESH_READER, map[], ms, []);
    StampedIsWritten(negotiate, FRESH_WRITER, map[], ms);
    var b := WriteAll(negotiate, FRESH_WRITER, ms).bytes;
    assert b + [] == b;
  }

  // ----- When timestamps are exact

  /** The run sends no Type 1 header. */
  predicate NoType1(negotiate: bool, w: Writer, ms: seq<Message>)
    requires w.size > 0
    decreases |ms|
  {
    ms == [] ||
    ((ms[0].data != [] ==> FormatSent(w, ms[0]) != 1)
     && NoType1(negotiate, WriteOne(negotiate, w, ms[0]).writer, ms[1..]))
  }

  /** The anchors are the writer's own timestamps, wherever it might leave out a full header. */
  ghost predicate AnchorsMatch(w: Writer, a: Anchors) {
    forall id: u32 :: StateOf(w.states, id).length != 0 ==> AnchorOf(a, id) == StateOf(w.states, id).timestamp
  }

  lemma MatchKept(negotiate: bool, w: Writer, a: Anchors, m: Message)
    requires w.size > 0 && AnchorsMatch(w, a) && Legal(w, m) && (m.data != [] ==> FormatSent(w, m) != 1)
    ensures AnchorsMatch(WriteOne(negotiate, w, m).writer, NextAnchors(w, a, m))
    ensures m.data != [] ==> AnchorOf(NextAnchors(w, a, m), Effective(w, m).csid) == m.timestamp
  {
    hide ChunksOf, Wires, Flatten, Settle;
    var w', a' := WriteOne(negotiate, w, m).writer, NextAnchors(w, a, m);
    var e := Effective(w, m);
    forall id: u32 | StateOf(w'.states, id).length != 0
      ensures AnchorOf(a', id) == StateOf(w'.states, id).timestamp
    {
      if id != e.csid {
        assert StateOf(w'.states, id) == StateOf(w.states, id);
      }
    }
  }

  /** Every timestamp is delivered as it was sent, all 32 bits of it, exactly if no Type 1 header was sent. */
  lemma {:induction false} ExactIff(negotiate: bool, w: Writer, a: Anchors, ms: seq<Message>)
    requires w.size > 0 && AnchorsMatch(w, a) && LegalRun(negotiate, w, ms)
    ensures Stamped(negotiate, w, a, ms) == Written(negotiate, w, ms) <==> NoType1(negotiate, w, ms)
    decreases |ms|
  {
    hide WriteOne, Legal, AnchorsMatch, FormatOf;
    if ms != [] {
      var m := ms[0];
      var w', a' := WriteOne(negotiate, w, m).writer, NextAnchors(w, a, m);
      var got, sent := Stamped(negotiate, w', a', ms[1..]), Written(negotiate, w', ms[1..]);
      if m.data == [] {
        MatchKept(negotiate, w, a, m);
        ExactIff(negotiate, w', a', ms[1..]);
        assert [] + got == got && [] + sent == sent;
      } else {
        var e := Effective(w, m);
        var x := e.(timestamp := AnchorOf(a', e.csid));
        assert ([x] + got)[1..] == got && ([e] + sent)[1..] == sent;
        assert ([x] + got)[0] == x && ([e] + sent)[0] == e;
        if FormatSent(w, m) == 1 {
          Type1IsStale(w, a, m);
        } else {
          MatchKept(negotiate, w, a, m);
          ExactIff(negotiate, w', a', ms[1..]);
        }
      }
    }
  }

  lemma Type1IsStale(w: Writer, a: Anchors, m: Message)
    requires AnchorsMatch(w, a) && Legal(w, m) && m.data != [] && FormatSent(w, m) == 1
    ensures AnchorOf(NextAnchors(w, a, m), Effective(w, m).csid) != m.timestamp
  {
  }

  /** The chunk streams on which no Type 1 header has gone out since their last Type 0 header. */
  function NextClean(w: Writer, clean: set<u32>, m: Message): set<u32> {
    if m.data == [] then clean
    else
      match FormatSent(w, m)
      case 0 => clean + {Effective(w, m).csid}
      case 1 => clean - {Effective(w, m).csid}
      case _ => clean
  }

  /** For each message that is delivered, whether its chunk stream is one of those when it is sent. */
  function Clean(negotiate: bool, w: Writer, clean: set<u32>, ms: seq<Message>): seq<bool>
    requires w.size > 0
    decreases |ms|
  {
    if ms == [] then [] else
      var clean' := NextClean(w, clean, ms[0]);
      (if ms[0].data == [] then [] else [Effective(w, ms[0]).csid in clean'])
      + Clean(negotiate, WriteOne(negotiate, w, ms[0]).writer, clean', ms[1..])
  }

  /** On those chunk streams the anchor is the writer's own timestamp, wherever it might leave out a full header. */
  ghost predicate CleanMatch(w: Writer, a: Anchors, clean: set<u32>) {
    forall id | id in clean :: StateOf(w.states, id).length != 0 ==> AnchorOf(a, id) == StateOf(w.states, id).timestamp
  }

  lemma CleanKept(negotiate: bool, w: Writer, a: Anchors, clean: set<u32>, m: Message)
    requires w.size > 0 && CleanMatch(w, a, clean) && Legal(w, m)
    ensures CleanMatch(WriteOne(negotiate, w, m).writer, NextAnchors(w, a, m), NextClean(w, clean, m))
    ensures m.data != [] && Effective(w, m).csid in NextClean(w, clean, m) ==>
              AnchorOf(NextAnchors(w, a, m), Effective(w, m).csid) == m.timestamp
  {
    hide ChunksOf, Wires, Flatten, Settle;
    var w', a', clean' := WriteOne(negotiate, w, m).writer, NextAnchors(w, a, m), NextClean(w, clean, m);
    var e := Effective(w, m);
    forall id | id in clean' && StateOf(w'.states, id).length != 0
      ensures AnchorOf(a', id) == StateOf(w'.states, id).timestamp
    {
      if id != e.csid {
        assert StateOf(w'.states, id) == StateOf(w.states, id);
      }
    }
  }

  /** Message by message: a timestamp is delivered as it was sent wherever no Type 1 header went out on its chunk stream
      since the last Type 0 header there. So Type 1 headers spoil nothing on other chunk streams, and nothing after the
      next full header. */
  lemma {:induction false} ExactWhereClean(negotiate: bool, w: Writer, a: Anchors, clean: set<u32>, ms: seq<Message>)
    requires w.size > 0 && CleanMatch(w, a, clean) && LegalRun(negotiate, w, ms)
    ensures var got, sent := Stamped(negotiate, w, a, ms), Written(negotiate, w, ms);
            var exact := Clean(negotiate, w, clean, ms);
            && |got| == |sent| == |exact|
            && forall i | 0 <= i < |exact| && exact[i] :: got[i] == sent[i]
    decreases |ms|
  {
    hide WriteOne, Legal, CleanMatch, FormatOf, NextAnchors, NextClean;
    if ms != [] {
      CleanKept(negotiate, w, a, clean, ms[0]);
      ExactWhereClean(negotiate, WriteOne(negotiate, w, ms[0]).writer, NextAnchors(w, a, ms[0]),
                      NextClean(w, clean, ms[0]), ms[1..]);
      assert Effective(w, ms[0]).data == ms[0].data && Effective(w, ms[0]).timestamp == ms[0].timestamp;
    }
  }

  /** A message 40 milliseconds after another of its kind arrives with the first one's timestamp. */
  lemma TimestampLost()
    ensures var m := Message(4, 1, 1000, 9, 1, [7]);
            var ms := [m, m.(timestamp := 1040)];
            && LegalRun(false, FRESH_WRITER, ms)
            && Written(false, FRESH_WRITER, ms) == ms
            && Stamped(false, FRESH_WRITER, map[], ms) == [m, m]
  {
    hide ChunksOf, Wires, Flatten;
    var m := Message(4, 1, 1000, 9, 1, [7]);
    var m' := m.(timestamp := 1040);
    var ms := [m, m'];
    var w := WriteOne(false, FRESH_WRITER, m).writer;
    var w' := WriteOne(false, w, m').writer;
    assert ms[1..] == [m'] && ms[1..][1..] == [];
    assert StateOf(w.states, 4) == StreamState(1000, 1, 9, 1, 0);
    assert FormatSent(FRESH_WRITER, m) == 0 && FormatSent(w, m') == 1;
    var a := NextAnchors(FRESH_WRITER, map[], m);
    assert a == map[4 := 1000] && NextAnchors(w, a, m') == a;
    assert LegalRun(false, w', []) && Written(false, w', []) == [] && Stamped(false, w', a, []) == [];
    assert LegalRun(false, w, [m']) && Written(false, w, [m']) == [m'] && Stamped(false, w, a, [m']) == [m];
  }

  // ----- A Type 1 header with an extended timestamp

  lemma TooLongRead(d: Bytes, x: Bytes, k: Bytes)
    ensures Take(x + (d + k), |d|).Ok? ==> |Take(x + (d + k), |d|).rest| == |x| + |k|
    ensures Take(x + (d + k), |d|).Ok?
  {
  }

  /** The reader, in step, takes exactly the bytes of a message's first chunk if and only if the writer sends no
      extended timestamp with a Type 1 header; otherwise it leaves four bytes behind and is out of step. */
  lemma FirstChunkConsumed(size: u32, ws: StreamState, rs: StreamState, m: Message, d: Bytes, k: Bytes)
    requires SafeSize(size) && InStep(ws, rs) && 0 < m.length < U24 && |d| == Min(m.length, size)
    ensures var h := FirstHeader(ws, m);
            var p := StepLocal(size, Local(rs, None), Basic(h.format, m.csid),
                               MessageHeader(h) + (ExtendedTimestamp(h) + (d + k)));
            && p.Ok? && |p.rest| == |k| + if DeltaFits(ws, m) then 0 else 4
  {
    hide TakeHeader, MessageHeader;
    var h := FirstHeader(ws, m);
    var body := MessageHeader(h) + (ExtendedTimestamp(h) + (d + k));
    if DeltaFits(ws, m) {
      FirstHeaderRead(ws, rs, m, d + k);
      TooLongRead(d, [], k);
      assert [] + (d + k) == d + k;
    } else {
      ShortHeaderRead(h, rs, ExtendedTimestamp(h) + (d + k));
      TooLongRead(d, ExtendedTimestamp(h), k);
    }
  }

  /** A message of one byte, 0xFFFFFF milliseconds after another of its kind: the first byte of the extended
      timestamp is delivered in place of the payload, and the rest left over. */
  lemma ExtendedDeltaMisread(d: byte)
    ensures var ws := StreamState(0, 1, 9, 1, 0);
            var m := Message(4, 1, EXTENDED, 9, 1, [d]);
            var h := FirstHeader(ws, m);
            var p := StepLocal(128, Local(ws, None), Basic(1, 4), MessageHeader(h) + (ExtendedTimestamp(h) + [d]));
            && h.format == 1 && InStep(ws, ws) && !DeltaFits(ws, m)
            && p.Ok? && p.value.delivered == Some(Message(4, 1, 0, 9, 1, [0])) && p.rest == [0xFF, 0xFF, 0xFF, d]
  {
    hide TakeHeader, MessageHeader;
    var ws := StreamState(0, 1, 9, 1, 0);
    var m := Message(4, 1, EXTENDED, 9, 1, [d]);
    var h := FirstHeader(ws, m);
    var x := ExtendedTimestamp(h) + [d];
    assert x == [0, 0xFF, 0xFF, 0xFF, d];
    ShortHeaderRead(h, ws, x);
    assert x[..1] == [0] && x[1..] == [0xFF, 0xFF, 0xFF, d];
    assert CopyInto(Zeros(1), 0, [0]) == [0];
  }

  // ----- Acknowledgements

  /** What is charged for the chunk at the front of `s`: its payload, and 12, 8, 4 or 1 bytes for its header. */
  function Charge(r: Reader, s: Bytes): nat
    requires Safe(r) && Step(r, s).Ok?
  {
    var b := TakeBasic(s);
    |TakeChunk(r.size, LocalOf(r, b.value.csid), b.value, b.rest).value.data| + [12, 8, 4, 1][s[0] / 64]
  }

  function Charges(r: Reader, ws: seq<Bytes>): nat
    requires Safe(r) && RunChunks(r, ws).Ran?
    decreases |ws|
  {
    if ws == [] then 0 else
      StepIsSafe(r, ws[0]);
      Charge(r, ws[0]) + Charges(Step(r, ws[0]).value.reader, ws[1..])
  }

  lemma AccountIs(r: Reader, n: nat)
    ensures var r' := Account(r, Wrap32(n));
            && r'.received == Wrap32(r.received + n)
            && r'.window == r.window
            && (r.window > 0 ==> Wrap32(r'.received - r'.acked) < r.window)
  {
    assert (r.received + n % U32) % U32 == (r.received + n) % U32;
  }

  lemma StepAccounts(r: Reader, s: Bytes)
    requires Safe(r) && Step(r, s).Ok?
    ensures var r' := Step(r, s).value.reader;
            && r'.received == Wrap32(r.received + Charge(r, s))
            && r'.window == r.window
            && (r.window > 0 ==> Wrap32(r'.received - r'.acked) < r.window)
  {
    hide TakeChunk, Assemble, Recall, Account, Wrap32;
    var b := TakeBasic(s);
    assert Overhead(b.value.format) == [12, 8, 4, 1][s[0] / 64];
    var l := StepLocal(r.size, LocalOf(r, b.value.csid), b.value, b.rest).value;
    assert l.cost == Wrap32(Charge(r, s));
    AccountIs(r, Charge(r, s));
  }

  /** Over any run the bytes received are the sum of all charges modulo 2^32, and after each chunk less than a
      window is unacknowledged, across every wrap-around of the counters. */
  lemma {:induction false} RunAccounts(r: Reader, ws: seq<Bytes>)
    requires Safe(r) && RunChunks(r, ws).Ran?
    ensures var r' := RunChunks(r, ws).reader;
            && r'.received == Wrap32(r.received + Charges(r, ws))
            && r'.window == r.window
            && (r.window > 0 && ws != [] ==> Wrap32(r'.received - r'.acked) < r.window)
    decreases |ws|
  {
    hide Step, Safe, Charge;
    if ws != [] {
      StepIsSafe(r, ws[0]);
      StepAccounts(r, ws[0]);
      var r1 := Step(r, ws[0]).value.reader;
      RunAccounts(r1, ws[1..]);
      WrapAdd(r.received, Charge(r, ws[0]), Charges(r1, ws[1..]));
    }
  }

  /** At every point of a run, not only at its end: the chunks so far were a run that delivered what the whole run had
      delivered by then, left a safe reader, and were counted and acknowledged as above. */
  lemma AlwaysAccounts(r: Reader, ws: seq<Bytes>, m: nat)
    requires Safe(r) && RunChunks(r, ws).Ran? && m <= |ws|
    ensures var run := RunChunks(r, ws[..m]);
            && run.Ran? && Safe(run.reader)
            && run.deliveries == RunChunks(r, ws).deliveries[..m]
            && run.reader.received == Wrap32(r.received + Charges(r, ws[..m]))
            && (r.window > 0 && m > 0 ==> Wrap32(run.reader.received - run.reader.acked) < r.window)
  {
    hide Safe, RunChunks, Charges, Wrap32;
    RunPrefix(r, ws, m);
    RunAccounts(r, ws[..m]);
  }

  // ----- When an acknowledgement is made

  lemma AccountMark(r: Reader, n: u32)
    ensures var r' := Account(r, n);
            r'.acked == if r.window > 0 && (r'.received - r.acked) % 0x1_0000_0000 >= r.window then r'.received
                        else r.acked
  {
  }

  /** The acknowledged mark moves, to the new count, if and only if the window is above 0 and at least a window has come
      in since the mark; otherwise it stays. */
  lemma StepMark(r: Reader, s: Bytes)
    requires Safe(r) && Step(r, s).Ok?
    ensures var r' := Step(r, s).value.reader;
            r'.acked == if r.window > 0 && (r'.received - r.acked) % 0x1_0000_0000 >= r.window then r'.received
                        else r.acked
  {
    hide TakeBasic, TakeChunk, Assemble, Recall, Account, Overhead;
    var b := TakeBasic(s);
    AccountMark(r, StepLocal(r.size, LocalOf(r, b.value.csid), b.value, b.rest).value.cost);
  }

  lemma LastStep(r: Reader, ws: seq<Bytes>)
    requires Safe(r) && RunChunks(r, ws).Ran? && ws != []
    ensures var before := RunChunks(r, ws[..|ws| - 1]);
            && before.Ran? && Safe(before.reader) && Step(before.reader, ws[|ws| - 1]).Ok?
            && RunChunks(r, ws).reader == Step(before.reader, ws[|ws| - 1]).value.reader
            && before.reader.window == r.window
  {
    hide Safe, Step;
    var w := ws[|ws| - 1];
    RunPrefix(r, ws, |ws| - 1);
    assert ws[..|ws| - 1] + [w] == ws;
    RunAppend(r, ws[..|ws| - 1], [w]);
    RunAccounts(r, ws[..|ws| - 1]);
    var one: seq<Bytes> := [w];
    assert one[1..] == [];
  }

  /** With chunk number `i` of a run at least a window had come in since the mark before it. */
  ghost predicate FullWith(r: Reader, ws: seq<Bytes>, i: nat)
    requires Safe(r) && RunChunks(r, ws).Ran? && i < |ws|
  {
    RunPrefix(r, ws, i);
    RunPrefix(r, ws, i + 1);
    var before, after := RunChunks(r, ws[..i]).reader, RunChunks(r, ws[..i + 1]).reader;
    r.window > 0 && (after.received - before.acked) % 0x1_0000_0000 >= r.window
  }

  /** After a run the mark is the count after the last chunk that filled the window, or what it was if none did. */
  lemma {:induction false} MarkOfRun(r: Reader, ws: seq<Bytes>, last: int)
    requires Safe(r) && RunChunks(r, ws).Ran? && -1 <= last < |ws|
    requires last >= 0 ==> FullWith(r, ws, last)
    requires forall i | last < i < |ws| :: !FullWith(r, ws, i)
    ensures last >= 0 ==> RunChunks(r, ws[..last + 1]).Ran?
    ensures RunChunks(r, ws).reader.acked
            == if last < 0 then r.acked else RunChunks(r, ws[..last + 1]).reader.received
    decreases |ws|
  {
    hide Safe, Step, RunChunks;
    if ws == [] {
      assert RunChunks(r, []).reader == r by { RunsNothing(r); }
    } else {
      var n := |ws| - 1;
      var head := ws[..n];
      assert ws[..n + 1] == ws;
      LastStep(r, ws);
      StepMark(RunChunks(r, head).reader, ws[n]);
      RunPrefix(r, ws, n);
      if last < n {
        assert !FullWith(r, ws, n);
        forall i | 0 <= i < n ensures FullWith(r, head, i) <==> FullWith(r, ws, i) {
          assert head[..i] == ws[..i] && head[..i + 1] == ws[..i + 1];
        }
        MarkOfRun(r, head, last);
        if last >= 0 {
          assert head[..last + 1] == ws[..last + 1];
          RunPrefix(r, ws, last + 1);
        }
      }
    }
  }

  lemma RunsNothing(r: Reader)
    requires Safe(r)
    ensures RunChunks(r, []).Ran? && RunChunks(r, []).reader == r
  {
  }

  lemma WrapAdd(a: int, b: int, c: int)
    ensures Wrap32(Wrap32(a + b) + c) == Wrap32(a + (b + c))
  {
  }
}
