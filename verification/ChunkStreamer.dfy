/** The chunk streamer as an object: both ends of a connection, each with its own maps. */
module ChunkStreaming {
  import opened Wire
  import opened Collections
  import opened Chunks
  import opened ChunkReader
  import opened ChunkTransport
  import opened ChunkSession

  class ChunkStreamer {
    /** The connection: bytes not yet read, and bytes written. */
    var input: Bytes
    var output: Bytes

    var readChunkSize: u32
    var writeChunkSize: u32
    var readStreamStates: map<u32, StreamState>
    var writeStreamStates: map<u32, StreamState>
    var incompleteMessages: map<u32, Partial>
    var nextWriteChunkId: u32
    var windowAckSize: u32
    var bytesReceived: u32
    var lastAckSent: u32

    ghost function ReaderView(): Reader
      reads this
    {
      Reader(readChunkSize, readStreamStates, incompleteMessages, bytesReceived, lastAckSent, windowAckSize)
    }

    ghost function WriterView(): Writer
      reads this
    {
      Writer(writeChunkSize, writeStreamStates, nextWriteChunkId)
    }

    ghost predicate Valid()
      reads this
    {
      Safe(ReaderView()) && SafeSize(writeChunkSize)
    }

    constructor (received: Bytes)
      ensures Valid()
      ensures ReaderView() == FRESH_READER && WriterView() == FRESH_WRITER
      ensures readChunkSize == writeChunkSize == 128 && nextWriteChunkId == 2
      ensures windowAckSize == 2500000 && bytesReceived == lastAckSent == 0
      ensures readStreamStates == writeStreamStates == map[] && incompleteMessages == map[]
      ensures input == received && output == []
    {
      input, output := received, [];
      readChunkSize, writeChunkSize := DEFAULT_CHUNK_SIZE, DEFAULT_CHUNK_SIZE;
      readStreamStates, writeStreamStates, incompleteMessages := map[], map[], map[];
      nextWriteChunkId := FIRST_CHUNK_ID;
      windowAckSize, bytesReceived, lastAckSent := WINDOW_ACK_SIZE, 0, 0;
    }

    method SetReadChunkSize(size: u32) returns (ok: bool)
      requires Valid()
      modifies this`readChunkSize
      ensures Valid()
      ensures ok <==> 1 <= size <= 65536
      ensures ok ==> readChunkSize == size
      ensures !ok ==> readChunkSize == old(readChunkSize)
    {
      if size > MAX_CHUNK_SIZE {
        return false;
      }
      if size == 0 {
        return false;
      }
      readChunkSize := size;
      ok := true;
    }

    method SetWriteChunkSize(size: u32) returns (ok: bool)
      requires Valid()
      modifies this`writeChunkSize
      ensures Valid()
      ensures ok <==> 1 <= size <= 65536
      ensures ok ==> writeChunkSize == size
      ensures !ok ==> writeChunkSize == old(writeChunkSize)
    {
      if size > MAX_CHUNK_SIZE {
        return false;
      }
      if size == 0 {
        return false;
      }
      writeChunkSize := size;
      ok := true;
    }

    // ----- Writing

    method Write(b: Bytes)
      modifies this`output
      ensures output == old(output) + b
    {
      output := output + b;
    }

    method GetNextChunkStreamId() returns (id: u32)
      modifies this`nextWriteChunkId
      ensures id == old(nextWriteChunkId) && nextWriteChunkId == NextId(id)
      ensures 2 <= id < 65535 ==> nextWriteChunkId == id + 1
      ensures id == 65535 ==> nextWriteChunkId == 2
    {
      id := nextWriteChunkId;
      nextWriteChunkId := Wrap32(nextWriteChunkId + 1);
      if nextWriteChunkId > LAST_CHUNK_ID {
        nextWriteChunkId := FIRST_CHUNK_ID;
      }
    }

    /** Cuts a message into chunks and remembers it. */
    method CutMessage(m: Message) returns (chunks: seq<Chunk>)
      requires Valid()
      modifies this`writeStreamStates
      ensures var st := StateOf(old(writeStreamStates), m.csid);
              && chunks == CreateChunks(st, m, writeChunkSize)
              && writeStreamStates == old(writeStreamStates)[m.csid := Remember(st, m)]
    {
      hide FormatOf, TimeField, MakeHeader, Continuations, CreateChunks, Remember, Pieces;
      chunks := [];
      var bytesRemaining := Wrap32(|m.data|);
      var offset: nat := 0;
      var isFirstChunk := true;
      if m.csid !in writeStreamStates {
        writeStreamStates := writeStreamStates[m.csid := FRESH];
      }
      var state := writeStreamStates[m.csid];
      ghost var states, data := writeStreamStates, m.data[..bytesRemaining];
      ghost var all := CreateChunks(state, m, writeChunkSize);
      assert data[0..] == data;
      PiecesOfAll(state, m, writeChunkSize);
      while bytesRemaining > 0
        invariant bytesRemaining >= 0 && offset + bytesRemaining == |data| && writeStreamStates == states
        invariant chunks + Pieces(isFirstChunk, state, m, data[offset..], writeChunkSize) == all
      {
        var chunkSize := writeChunkSize;
        if bytesRemaining < chunkSize {
          chunkSize := bytesRemaining;
        }
        var format: Format := 3;
        var time: u32 := 0;
        if isFirstChunk {
          format, time := FormatOf(state, m), TimeField(state, m);
        }
        var chunk := Chunk(MakeHeader(format, m, time), m.data[offset..offset + chunkSize]);
        PiecesStep(isFirstChunk, state, m, data, offset, writeChunkSize);
        assert data[offset..offset + chunkSize] == m.data[offset..offset + chunkSize];
        CutStep(chunks, chunk, Pieces(false, state, m, data[offset + chunkSize..], writeChunkSize));
        isFirstChunk := false;
        chunks := chunks + [chunk];
        offset := offset + chunkSize;
        bytesRemaining := bytesRemaining - chunkSize;
      }
      PiecesDone(isFirstChunk, state, m, data[offset..], writeChunkSize);
      assert chunks + [] == chunks;
      UpdateTwice(old(writeStreamStates), m.csid, FRESH, Remember(state, m));
      writeStreamStates := writeStreamStates[m.csid := Remember(state, m)];
    }

    method WriteChunk(c: Chunk)
      modifies this`output
      ensures output == old(output) + WireOf(c)
    {
      hide BasicHeader, MessageHeader, Be32;
      var h := c.header;
      Write(BasicHeader(h.format, h.csid));
      if |MessageHeader(h)| > 0 {
        Write(MessageHeader(h));
      }
      if h.extended > 0 {
        Write(Be32(h.extended));
      }
      if |c.data| > 0 {
        Write(c.data);
      }
      Concat4(old(output), BasicHeader(h.format, h.csid), MessageHeader(h), ExtendedTimestamp(h), c.data);
    }

    /** Sends the chunks of a message, and of nothing else, and remembers it. */
    method WriteMessage(m: Message)
      requires Valid()
      modifies this`output, this`writeStreamStates, this`nextWriteChunkId
      ensures Valid()
      ensures output == old(output) + Flatten(Wires(ChunksOf(old(WriterView()), m)))
      ensures WriterView() == AfterWriting(old(WriterView()), m)
    {
      hide CreateChunks, WireOf, Remember;
      var length := m.length;
      if length == 0 {
        length := Wrap32(|m.data|);
      }
      var id := m.csid;
      if id == 0 {
        id := GetNextChunkStreamId();
      }
      var local := m.(length := length, csid := id);
      assert local == Effective(old(WriterView()), m);
      var chunks := CutMessage(local);
      for i := 0 to |chunks|
        invariant output + Flatten(Wires(chunks[i..])) == old(output) + Flatten(Wires(chunks))
        invariant WriterView() == AfterWriting(old(WriterView()), m) && Valid()
      {
        assert chunks[i..][1..] == chunks[i + 1..];
        Concat(output, WireOf(chunks[i]), Flatten(Wires(chunks[i + 1..])));
        WriteChunk(chunks[i]);
      }
      assert chunks[|chunks|..] == [];
      assert output + [] == output;
    }

    // ----- Reading

    /** `io.ReadFull` of `n` bytes. */
    method Read(n: nat) returns (r: Result<Bytes>)
      modifies this`input
      ensures Reflects(Take(old(input), n), r, input)
    {
      if |input| < n {
        return Failure(Truncated);
      }
      r := Success(input[..n]);
      input := input[n..];
    }

    method ReadBasicHeader() returns (r: Result<Basic>)
      modifies this`input
      ensures Reflects(TakeBasic(old(input)), r, input)
    {
      var first := Read(1);
      if first.Failure? {
        return Failure(first.error);
      }
      var format, low := first.value[0] / 64, first.value[0] % 64;
      if low == 0 {
        var x := Read(1);
        if x.Failure? {
          return Failure(x.error);
        }
        return Success(Basic(format, x.value[0] as int + 64));
      } else if low == 1 {
        var x := Read(2);
        if x.Failure? {
          return Failure(x.error);
        }
        return Success(Basic(format, x.value[0] as int + x.value[1] as int * 0x100 + 64));
      }
      r := Success(Basic(format, low));
    }

    /** The header of a chunk, which the state of its chunk stream then remembers. */
    method ReadMessageHeader(b: Basic) returns (r: Result<Header>)
      requires Valid()
      modifies this`input, this`readStreamStates
      ensures Valid()
      ensures Reflects(TakeHeader(b.format, b.csid, StateOf(old(readStreamStates), b.csid), old(input)), r, input)
      ensures r.Success? ==> readStreamStates == old(readStreamStates)[b.csid := Recall(r.value)]
    {
      if b.csid !in readStreamStates {
        readStreamStates := readStreamStates[b.csid := FRESH];
      }
      var state := readStreamStates[b.csid];
      r := ReadHeader(b, state);
      if r.Success? {
        HeaderLengthFits(b.format, b.csid, state, old(input));
        readStreamStates := readStreamStates[b.csid := Recall(r.value)];
      }
    }

    method ReadHeader(b: Basic, state: StreamState) returns (r: Result<Header>)
      modifies this`input
      ensures Reflects(TakeHeader(b.format, b.csid, state, old(input)), r, input)
    {
      hide FromBe24, FromLe32, FromBe32;
      match b.format
      case 0 =>
        var h := Read(11);
        if h.Failure? {
          return Failure(h.error);
        }
        var time, length, msid := FromBe24(h.value[..3]), FromBe24(h.value[3..6]), FromLe32(h.value[7..]);
        if time == EXTENDED {
          var x := Read(4);
          if x.Failure? {
            return Failure(x.error);
          }
          var t := FromBe32(x.value);
          r := Success(Header(0, b.csid, t, length, h.value[6], msid, 0, t));
        } else {
          r := Success(Header(0, b.csid, time, length, h.value[6], msid, 0, 0));
        }
      case 1 =>
        var h := Read(7);
        if h.Failure? {
          return Failure(h.error);
        }
        var delta := FromBe24(h.value[..3]);
        r := Success(Header(1, b.csid, Wrap32(state.timestamp + delta), FromBe24(h.value[3..6]), h.value[6], state.msid,
                            delta, 0));
      case 2 =>
        var h := Read(3);
        if h.Failure? {
          return Failure(h.error);
        }
        var delta := FromBe24(h.value);
        r := Success(Header(2, b.csid, Wrap32(state.timestamp + delta), state.length, state.typ, state.msid, delta, 0));
      case _ =>
        r := Success(Header(3, b.csid, Wrap32(state.timestamp + state.delta), state.length, state.typ, state.msid,
                            state.delta, 0));
    }

    /** One chunk; the message it belongs to is not touched yet. */
    method ReadChunk() returns (r: Result<Chunk>)
      requires Valid()
      modifies this`input, this`readStreamStates
      ensures Valid()
      ensures match TakeBasic(old(input))
              case Fail(e) => r == Failure(e)
              case Ok(b, s) =>
                && Reflects(TakeChunk(readChunkSize, LocalOf(old(ReaderView()), b.csid), b, s), r, input)
                && (r.Success? ==> r.value.header.csid == b.csid && r.value.header.format == b.format
                                   && readStreamStates == old(readStreamStates)[b.csid := Recall(r.value.header)])
    {
      hide TakeBasic, TakeHeader, Recall, Safe, DataSize;
      var b := ReadBasicHeader();
      if b.Failure? {
        return Failure(b.error);
      }
      ghost var l := LocalOf(old(ReaderView()), b.value.csid);
      SafeParts(old(ReaderView()), b.value.csid);
      ChunkFits(readChunkSize, l, b.value, input);
      ghost var rest := input;
      var h := ReadMessageHeader(b.value);
      if h.Failure? {
        return Failure(h.error);
      }
      HeaderLengthFits(b.value.format, b.value.csid, l.state, rest);
      assert LocalOf(ReaderView(), h.value.csid).partial == l.partial;
      var n := CalculateChunkDataSize(h.value, readStreamStates[b.value.csid]);
      if n > MAX_CHUNK_SIZE {
        return Failure(ChunkTooLarge(n));
      }
      var data := Read(n);
      r := if data.Failure? then Failure(data.error) else Success(Chunk(h.value, data.value));
    }

    method CalculateChunkDataSize(h: Header, state: StreamState) returns (n: u32)
      ensures n == DataSize(h, state, LocalOf(ReaderView(), h.csid).partial, readChunkSize)
    {
      var length := if h.length == 0 then state.length else h.length;
      if h.csid !in incompleteMessages {
        return if length <= readChunkSize then length else readChunkSize;
      }
      var remaining := Wrap32(length - incompleteMessages[h.csid].bytesRead);
      n := if remaining <= readChunkSize then remaining else readChunkSize;
    }

    /** Adds a chunk to the message in progress on its chunk stream, and hands the message over once complete. */
    method AssembleMessage(c: Chunk) returns (m: Option<Message>)
      requires c.header.csid in incompleteMessages ==>
                 incompleteMessages[c.header.csid].bytesRead <= |incompleteMessages[c.header.csid].message.data|
      modifies this`incompleteMessages
      ensures match Assemble(LocalOf(old(ReaderView()), c.header.csid).partial, c)
              case Pending(p) => m == None && incompleteMessages == old(incompleteMessages)[c.header.csid := p]
              case Complete(done) => m == Some(done) && incompleteMessages == old(incompleteMessages) - {c.header.csid}
    {
      var id := c.header.csid;
      if id !in incompleteMessages {
        var h := c.header;
        var msg := Message(id, h.msid, h.timestamp, h.typ, h.length, CopyInto(Zeros(h.length), 0, c.data));
        if Wrap32(|c.data|) >= h.length {
          assert incompleteMessages == incompleteMessages - {id};
          return Some(msg);
        }
        incompleteMessages := incompleteMessages[id := Partial(msg, Wrap32(|c.data|))];
        return None;
      }
      var p := incompleteMessages[id];
      var msg := p.message.(data := CopyInto(p.message.data, p.bytesRead, c.data));
      var bytesRead := Wrap32(p.bytesRead + |c.data|);
      if bytesRead >= msg.length {
        incompleteMessages := incompleteMessages - {id};
        return Some(msg);
      }
      incompleteMessages := incompleteMessages[id := Partial(msg, bytesRead)];
      m := None;
    }

    method UpdateBytesReceived(n: u32)
      modifies this`bytesReceived, this`lastAckSent
      ensures ReaderView() == Account(old(ReaderView()), n)
      ensures bytesReceived == (old(bytesReceived) + n) % 0x1_0000_0000
      ensures lastAckSent == if windowAckSize > 0
                                && (bytesReceived - old(lastAckSent)) % 0x1_0000_0000 >= windowAckSize
                             then bytesReceived
                             else old(lastAckSent)
      ensures forall r: Reader | SameCounts(r, old(ReaderView())) :: SameCounts(Account(r, n), ReaderView())
    {
      bytesReceived := Wrap32(bytesReceived + n);
      if windowAckSize > 0 && Wrap32(bytesReceived - lastAckSent) >= windowAckSize {
        lastAckSent := bytesReceived;
      }
    }

    /** Chunks up to the first that completes a message, on whatever bytes come in. */
    method ReadMessage() returns (r: Result<Message>)
      requires Valid()
      modifies this`input, this`readStreamStates, this`incompleteMessages, this`bytesReceived, this`lastAckSent
      ensures Valid()
      ensures match ChunkReader.ReadMessage(old(ReaderView()), old(input))
              case Ok(got, rest) => r == Success(got.message) && ReaderView() == got.reader && input == rest
              case Fail(e) => r == Failure(e)
    {
      hide TakeBasic, TakeChunk, Assemble, Safe, Recall, Account, Overhead, Step;
      while true
        invariant Valid()
        invariant ChunkReader.ReadMessage(ReaderView(), input) == ChunkReader.ReadMessage(old(ReaderView()), old(input))
        decreases |input|
      {
        ghost var before, s := ReaderView(), input;
        StepIsSafe(before, s);
        var c := ReadChunk();
        if c.Failure? {
          StepFails(before, s, c.error);
          return Failure(c.error);
        }
        UpdateBytesReceived(Wrap32(|c.value.data| + Overhead(c.value.header.format)));
        SafeParts(before, c.value.header.csid);
        var m := AssembleMessage(c.value);
        StepDone(before, s, c.value, m, ReaderView(), input);
        if m.Some? {
          return Success(m.value);
        }
      }
    }
  }

  /** The chunks still to be cut from `data`, with or without the first chunk among them. */
  ghost function Pieces(first: bool, st: StreamState, m: Message, data: Bytes, size: u32): seq<Chunk>
    requires size > 0
  {
    if data == [] then [] else
      var n := Min(|data|, size);
      var (f, time) := if first then (FormatOf(st, m), TimeField(st, m)) else (3, 0);
      [Chunk(MakeHeader(f, m, time), data[..n])] + Continuations(m, data[n..], size)
  }

  lemma PiecesOfAll(st: StreamState, m: Message, size: u32)
    requires size > 0
    ensures [] + Pieces(true, st, m, m.data[..Wrap32(|m.data|)], size) == CreateChunks(st, m, size)
  {
    hide FormatOf, TimeField, MakeHeader, Continuations;
  }

  lemma PiecesStep(first: bool, st: StreamState, m: Message, data: Bytes, at: nat, size: u32)
    requires size > 0 && at < |data|
    ensures var n := Min(|data| - at, size);
            var (f, time) := if first then (FormatOf(st, m), TimeField(st, m)) else (3, 0);
            Pieces(first, st, m, data[at..], size)
            == [Chunk(MakeHeader(f, m, time), data[at..at + n])] + Pieces(false, st, m, data[at + n..], size)
  {
    hide FormatOf, TimeField, MakeHeader;
    var n := Min(|data| - at, size);
    assert data[at..][..n] == data[at..at + n] && data[at..][n..] == data[at + n..];
  }

  lemma PiecesDone(first: bool, st: StreamState, m: Message, data: Bytes, size: u32)
    requires size > 0 && data == []
    ensures Pieces(first, st, m, data, size) == []
  {
  }

  lemma CutStep(a: seq<Chunk>, c: Chunk, b: seq<Chunk>)
    ensures (a + [c]) + b == a + ([c] + b)
  {
  }

  lemma Concat4(o: Bytes, a: Bytes, b: Bytes, c: Bytes, d: Bytes)
    ensures (((o + a) + b) + c) + d == o + (a + (b + (c + d)))
    ensures o + a + [] == o + a
    ensures o + a + b + [] == o + a + b
    ensures o + a + b + c + [] == o + a + b + c
  {
    Concat(o, a, b + (c + d));
    Concat(o + a, b, c + d);
    Concat(o + a + b, c, d);
  }

  ghost predicate SameCounts(r: Reader, r': Reader) {
    r.received == r'.received && r.acked == r'.acked && r.window == r'.window
  }

  lemma StepFails(r: Reader, s: Bytes, e: Error)
    requires Safe(r)
    requires match TakeBasic(s)
             case Fail(e') => e' == e
             case Ok(b, rest) => TakeChunk(r.size, LocalOf(r, b.csid), b, rest) == Fail(e)
    ensures Step(r, s) == Fail(e)
  {
    hide TakeBasic, TakeChunk, Safe;
  }

  /** The four updates of the fields make one step of the reader. */
  lemma StepDone(r: Reader, s: Bytes, c: Chunk, m: Option<Message>, r': Reader, rest: Bytes)
    requires Safe(r) && TakeBasic(s).Ok?
    requires var b := TakeBasic(s);
             && b.value == Basic(c.header.format, c.header.csid)
             && TakeChunk(r.size, LocalOf(r, c.header.csid), b.value, b.rest) == Ok(c, rest)
    requires LocalOf(r, c.header.csid).partial.Some? ==>
               var p := LocalOf(r, c.header.csid).partial.value; p.bytesRead <= |p.message.data|
    requires var id := c.header.csid;
             var a := Account(r, Wrap32(|c.data| + Overhead(c.header.format)));
             && r'.size == r.size && r'.window == r.window
             && r'.received == a.received && r'.acked == a.acked
             && r'.states == r.states[id := Recall(c.header)]
             && match Assemble(LocalOf(r, id).partial, c)
                case Pending(p) => m == None && r'.partials == r.partials[id := p]
                case Complete(done) => m == Some(done) && r'.partials == r.partials - {id}
    ensures Step(r, s) == Ok(Stepped(r', m), rest)
  {
    hide TakeBasic, TakeChunk, Assemble, Safe, Recall, Overhead;
  }

  /** A server's side of a connection: it processes each message it has read before it reads the next. */
  class ServerConnection {
    const chunker: ChunkStreamer

    constructor (c: ChunkStreamer)
      ensures chunker == c
    {
      chunker := c;
    }

    method ProcessMessage(m: Message)
      requires chunker.Valid()
      modifies chunker`readChunkSize
      ensures chunker.Valid()
      ensures chunker.readChunkSize == Settle(true, old(chunker.readChunkSize), m)
      ensures var d := m.data;
              var n := if |d| >= 4 then d[0] as int * 16777216 + d[1] as int * 65536 + d[2] as int * 256 + d[3] else 0;
              chunker.readChunkSize == if m.typ == 1 && |d| >= 4 && 1 <= n <= 65536 then n
                                       else old(chunker.readChunkSize)
    {
      if m.typ == SET_CHUNK_SIZE {
        if |m.data| >= 4 {
          var _ := chunker.SetReadChunkSize(FromBe32(m.data[..4]));
        }
      }
    }

    /** One turn of the message loop. */
    method ReadAndProcess() returns (r: Result<Message>)
      requires chunker.Valid()
      modifies chunker`readChunkSize, chunker`input, chunker`readStreamStates, chunker`incompleteMessages,
               chunker`bytesReceived, chunker`lastAckSent
      ensures chunker.Valid()
      ensures match ReadOne(true, old(chunker.ReaderView()), old(chunker.input))
              case Ok(got, rest) =>
                r == Success(got.message) && chunker.ReaderView() == got.reader && chunker.input == rest
              case Fail(e) => r == Failure(e)
    {
      r := chunker.ReadMessage();
      if r.Success? {
        ProcessMessage(r.value);
      }
    }

    /** The message loop, until a read fails. */
    method Start() returns (received: seq<Message>, error: Error)
      requires chunker.Valid()
      modifies chunker`readChunkSize, chunker`input, chunker`readStreamStates, chunker`incompleteMessages,
               chunker`bytesReceived, chunker`lastAckSent
      ensures Exhausts(true, old(chunker.ReaderView()), old(chunker.input), |received|)
      ensures ReadAll(true, old(chunker.ReaderView()), old(chunker.input), |received|).value.messages == received
    {
      hide Safe, ReadOne, ReadAll;
      received := [];
      ghost var r, s := chunker.ReaderView(), chunker.input;
      ReadNone(r, s);
      while true
        invariant chunker.Valid()
        invariant ReadAll(true, r, s, |received|)
               == Ok(ReceivedAll(chunker.ReaderView(), received), chunker.input)
        decreases |chunker.input|
      {
        ReadAllMore(true, r, s, |received|);
        ReadOneShrinks(chunker.ReaderView(), chunker.input);
        var m := ReadAndProcess();
        if m.Failure? {
          return received, m.error;
        }
        received := received + [m.value];
      }
    }
  }

  lemma WriteNone(w: Writer)
    requires w.size > 0
    ensures WriteAll(true, w, []).bytes == []
  {
  }

  lemma ReadNone(r: Reader, s: Bytes)
    requires Safe(r)
    ensures ReadAll(true, r, s, 0) == Ok(ReceivedAll(r, []), s)
  {
  }

  lemma ReadOneShrinks(r: Reader, s: Bytes)
    requires Safe(r)
    ensures ReadOne(true, r, s).Ok? ==> |ReadOne(true, r, s).rest| < |s|
  {
  }

  /** A client that sends `ms`, setting its chunk size after each SetChunkSize message, and the server at the other
      end of its connection. The server receives all messages that have a payload, in order, with the timestamps of
      the last full headers. */
  method ClientToServer(ms: seq<Message>) returns (received: seq<Message>)
    requires LegalRun(true, FRESH_WRITER, ms)
    ensures received == Stamped(true, FRESH_WRITER, map[], ms)
    ensures Carried(ms)
    ensures var want := Completed(2, ms);
            && |received| == |want|
            && forall i | 0 <= i < |want| :: received[i] == want[i].(timestamp := received[i].timestamp)
  {
    hide Safe, ReadOne, Stamped, ReadAll, WriteAll, LegalRun, Exhausts, ChunksOf, Wires, Flatten, AfterWriting,
      Effective, Completed;
    var client := new ChunkStreamer([]);
    ghost var all := WriteAll(true, FRESH_WRITER, ms);
    assert ms[0..] == ms && [] + all.bytes == all.bytes;
    for i := 0 to |ms|
      invariant client.Valid() && fresh(client)
      invariant client.output + WriteAll(true, client.WriterView(), ms[i..]).bytes == all.bytes
    {
      SendOne(client.output, client.WriterView(), ms[i..]);
      assert ms[i..][1..] == ms[i + 1..];
      client.WriteMessage(ms[i]);
      if ms[i].typ == SET_CHUNK_SIZE && |ms[i].data| >= 4 {
        var _ := client.SetWriteChunkSize(FromBe32(ms[i].data[..4]));
      }
    }
    WriteNone(client.WriterView());
    assert ms[|ms|..] == [] && client.output + [] == client.output;
    FreshInStep();
    var chunker := new ChunkStreamer(client.output);
    var server := new ServerConnection(chunker);
    var messages, _ := server.Start();
    NothingElseArrives(ms, |messages|);
    received := messages;
    LegalIsCarried(true, FRESH_WRITER, ms);
    WrittenIsCompleted(true, FRESH_WRITER, ms);
    StampedIsWritten(true, FRESH_WRITER, map[], ms);
  }

  lemma NothingElseArrives(ms: seq<Message>, n: nat)
    requires LegalRun(true, FRESH_WRITER, ms) && Safe(FRESH_READER)
    requires Exhausts(true, FRESH_READER, WriteAll(true, FRESH_WRITER, ms).bytes, n)
    ensures ReadAll(true, FRESH_READER, WriteAll(true, FRESH_WRITER, ms).bytes, n).value.messages
            == Stamped(true, FRESH_WRITER, map[], ms)
  {
    hide Safe, ReadOne, Stamped, ReadAll, WriteAll, LegalRun;
    var b, want := WriteAll(true, FRESH_WRITER, ms).bytes, Stamped(true, FRESH_WRITER, map[], ms);
    FreshInStep();
    Transport(true, FRESH_WRITER, FRESH_READER, map[], ms, []);
    assert b + [] == b;
    ReadAllIsSafe(true, FRESH_READER, b, |want|);
    NothingMore(true, ReadAll(true, FRESH_READER, b, |want|).value.reader);
    ExhaustsOnce(true, FRESH_READER, b, n, |want|);
  }
}
