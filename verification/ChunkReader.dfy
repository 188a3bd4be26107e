/** The reader on arbitrary bytes: it never leaves its buffers, and each chunk stream is read on its own. */
module ChunkReader {
  import opened Wire
  import opened Chunks

  // ----- Safety

  lemma HeaderLengthFits(f: Format, csid: u32, st: StreamState, s: Bytes)
    requires st.length < U24 && TakeHeader(f, csid, st, s).Ok?
    ensures TakeHeader(f, csid, st, s).value.length < U24
    ensures TakeHeader(f, csid, st, s).value.format == f && TakeHeader(f, csid, st, s).value.csid == csid
  {
  }

  /** No chunk is larger than the chunk size, not even when a header changes the length in mid-message and
      the difference wraps around; so the reader's own limit never stops it. */
  lemma ChunkFits(size: u32, l: Local, b: Basic, s: Bytes)
    requires SafeSize(size) && SafeLocal(l)
    ensures TakeChunk(size, l, b, s).Ok? ==>
              var c := TakeChunk(size, l, b, s).value;
              && |c.data| <= size
              && |c.data| == DataSize(c.header, Recall(c.header), l.partial, size)
              && c.header.length < U24 && c.header.csid == b.csid && c.header.format == b.format
    ensures TakeChunk(size, l, b, s).Fail? ==> TakeChunk(size, l, b, s).error == Truncated
  {
    var h := TakeHeader(b.format, b.csid, l.state, s);
    if h.Ok? {
      HeaderLengthFits(b.format, b.csid, l.state, s);
    }
  }

  /** What one chunk leaves behind or delivers, starting from a safe state. */
  lemma AssembleIsSafe(size: u32, partial: Option<Partial>, c: Chunk)
    requires SafeSize(size) && (partial.Some? ==> SafePartial(partial.value))
    requires c.header.length < U24
    requires |c.data| == DataSize(c.header, Recall(c.header), partial, size)
    ensures match Assemble(partial, c)
            case Pending(p) => SafePartial(p)
            case Complete(m) => |m.data| == m.length
  {
  }

  lemma StepLocalIsSafe(size: u32, l: Local, b: Basic, s: Bytes)
    requires SafeSize(size) && SafeLocal(l)
    ensures var p := StepLocal(size, l, b, s);
            match p
            case Ok(step, _) =>
              && SafeLocal(step.local)
              && (step.delivered.Some? ==> |step.delivered.value.data| == step.delivered.value.length)
              && (step.delivered.Some? <==> step.local.partial.None?)
            case Fail(e) => e == Truncated
  {
    hide TakeChunk, Assemble, DataSize;
    ChunkFits(size, l, b, s);
    var c := TakeChunk(size, l, b, s);
    if c.Ok? {
      AssembleIsSafe(size, l.partial, c.value);
    }
  }

  lemma BasicReads(s: Bytes)
    ensures TakeBasic(s).Fail? ==> TakeBasic(s).error == Truncated
  {
  }

  /** In every state the reader can reach, each message in progress has at least one byte and fewer than its
      length, in a buffer of its length; each message delivered has as many bytes as its length says; and the
      only error is the end of the input. */
  lemma StepIsSafe(r: Reader, s: Bytes)
    requires Safe(r)
    ensures match Step(r, s)
            case Ok(step, _) =>
              && Safe(step.reader)
              && (step.delivered.Some? ==> |step.delivered.value.data| == step.delivered.value.length)
            case Fail(e) => e == Truncated
  {
    hide TakeBasic, StepLocal, SafePartial;
    BasicReads(s);
    var b := TakeBasic(s);
    if b.Ok? {
      StepLocalIsSafe(r.size, LocalOf(r, b.value.csid), b.value, b.rest);
    }
  }

  datatype Received = Received(reader: Reader, message: Message)

  /** Chunks up to the first that completes a message. */
  function ReadMessage(r: Reader, s: Bytes): (p: Parsed<Received, Bytes>)
    requires Safe(r)
    ensures p.Ok? ==> |p.rest| < |s|
    decreases |s|
  {
    var (step, rest) :- Step(r, s);
    if step.delivered.Some? then Ok(Received(step.reader, step.delivered.value), rest) else
      StepIsSafe(r, s);
      ReadMessage(step.reader, rest)
  }

  lemma {:induction false} ReadMessageIsSafe(r: Reader, s: Bytes)
    requires Safe(r)
    ensures match ReadMessage(r, s)
            case Ok(got, _) => Safe(got.reader) && |got.message.data| == got.message.length
            case Fail(e) => e == Truncated
    decreases |s|
  {
    hide Step, Safe;
    StepIsSafe(r, s);
    var p := Step(r, s);
    if p.Ok? && p.value.delivered.None? {
      ReadMessageIsSafe(p.value.reader, p.rest);
    }
  }

  // ----- What follows a chunk does not matter

  lemma TakeBasicExtends(s: Bytes, x: Bytes)
    ensures Extends(TakeBasic(s), TakeBasic(s + x), x)
  {
    TakeByteExtends(s, x);
    if s != [] {
      TakeByteExtends(s[1..], x);
      TakeExtends(s[1..], 2, x);
    }
  }

  lemma TakeHeaderExtends(f: Format, csid: u32, st: StreamState, s: Bytes, x: Bytes)
    ensures Extends(TakeHeader(f, csid, st, s), TakeHeader(f, csid, st, s + x), x)
  {
    match f
    case 0 =>
      TakeExtends(s, 11, x);
      if |s| >= 11 {
        TakeWordsExtend(s[11..], x);
      }
    case 1 => TakeExtends(s, 7, x);
    case 2 => TakeExtends(s, 3, x);
    case _ =>
  }

  lemma TakeChunkExtends(size: u32, l: Local, b: Basic, s: Bytes, x: Bytes)
    ensures Extends(TakeChunk(size, l, b, s), TakeChunk(size, l, b, s + x), x)
  {
    hide TakeHeader;
    TakeHeaderExtends(b.format, b.csid, l.state, s, x);
    var h := TakeHeader(b.format, b.csid, l.state, s);
    if h.Ok? {
      TakeExtends(h.rest, DataSize(h.value, Recall(h.value), l.partial, size), x);
    }
  }

  lemma StepLocalExtends(size: u32, l: Local, b: Basic, s: Bytes, x: Bytes)
    requires SafeLocal(l)
    ensures Extends(StepLocal(size, l, b, s), StepLocal(size, l, b, s + x), x)
  {
    hide TakeChunk, Assemble;
    TakeChunkExtends(size, l, b, s, x);
  }

  lemma StepExtends(r: Reader, s: Bytes, x: Bytes)
    requires Safe(r)
    ensures Extends(Step(r, s), Step(r, s + x), x)
  {
    hide TakeBasic, StepLocal;
    TakeBasicExtends(s, x);
    var b := TakeBasic(s);
    if b.Ok? {
      StepLocalExtends(r.size, LocalOf(r, b.value.csid), b.value, b.rest, x);
    }
  }

  // ----- Runs over chunks given one by one

  /** The reader after some chunks, and what each of them delivered; or a chunk that it does not read as one. */
  datatype Run = Ran(reader: Reader, deliveries: seq<Option<Message>>) | Misread

  function RunChunks(r: Reader, ws: seq<Bytes>): (run: Run)
    requires Safe(r)
    ensures run.Ran? ==> |run.deliveries| == |ws|
    decreases |ws|
  {
    if ws == [] then Ran(r, []) else
      var p := Step(r, ws[0]);
      if p.Fail? || p.rest != [] then Misread else
        StepIsSafe(r, ws[0]);
        match RunChunks(p.value.reader, ws[1..])
        case Ran(r', ds) => Ran(r', [p.value.delivered] + ds)
        case Misread => Misread
  }

  /** Over any run, on arbitrary bytes: the reader is safe at the end, and each message delivered on the way has as
      many bytes as its length says. */
  lemma {:induction false} RunIsSafe(r: Reader, ws: seq<Bytes>)
    requires Safe(r)
    ensures match RunChunks(r, ws)
            case Ran(r', ds) =>
              Safe(r') && forall i | 0 <= i < |ds| :: ds[i].Some? ==> |ds[i].value.data| == ds[i].value.length
            case Misread => true
    decreases |ws|
  {
    hide Step, Safe;
    if ws != [] && Step(r, ws[0]).Ok? {
      StepIsSafe(r, ws[0]);
      RunIsSafe(Step(r, ws[0]).value.reader, ws[1..]);
    }
  }

  /** A run over some chunks and more of them is the run over the first, and from where it ends over the others. */
  lemma {:induction false} RunAppend(r: Reader, a: seq<Bytes>, b: seq<Bytes>)
    requires Safe(r)
    ensures match RunChunks(r, a)
            case Ran(r1, da) =>
              Safe(r1) && RunChunks(r, a + b) == (match RunChunks(r1, b)
                                                  case Ran(r2, db) => Ran(r2, da + db)
                                                  case Misread => Misread)
            case Misread => RunChunks(r, a + b) == Misread
    decreases |a|
  {
    hide Step, Safe;
    if a == [] {
      assert a + b == b;
      var run := RunChunks(r, b);
      if run.Ran? {
        assert [] + run.deliveries == run.deliveries;
      }
    } else {
      assert (a + b)[1..] == a[1..] + b;
      if Step(r, a[0]).Ok? {
        StepIsSafe(r, a[0]);
        var step := Step(r, a[0]).value;
        RunAppend(step.reader, a[1..], b);
        var head := RunChunks(step.reader, a[1..]);
        if head.Ran? && RunChunks(head.reader, b).Ran? {
          Regroup(step.delivered, head.deliveries, RunChunks(head.reader, b).deliveries);
        }
      }
    }
  }

  /** The chunks so far of a run are a run, which delivered what the whole run had delivered by then. */
  lemma RunPrefix(r: Reader, ws: seq<Bytes>, m: nat)
    requires Safe(r) && RunChunks(r, ws).Ran? && m <= |ws|
    ensures var run := RunChunks(r, ws[..m]);
            run.Ran? && Safe(run.reader) && run.deliveries == RunChunks(r, ws).deliveries[..m]
  {
    hide Safe, RunChunks;
    assert ws[..m] + ws[m..] == ws;
    RunAppend(r, ws[..m], ws[m..]);
  }

  lemma Regroup<T>(x: T, a: seq<T>, b: seq<T>)
    ensures [x] + a + b == [x] + (a + b)
  {
  }

  /** A run whose last chunk, and no other, delivers a message. */
  ghost predicate DeliversLast(ds: seq<Option<Message>>, m: Message) {
    && ds != []
    && (forall i | 0 <= i < |ds| - 1 :: ds[i] == None)
    && ds[|ds| - 1] == Some(m)
  }

  /** Reading a message from a byte stream that starts with such a run. */
  lemma {:induction false} ReadRun(r: Reader, ws: seq<Bytes>, m: Message, k: Bytes)
    requires Safe(r) && RunChunks(r, ws).Ran? && DeliversLast(RunChunks(r, ws).deliveries, m)
    ensures ReadMessage(r, Flatten(ws) + k) == Ok(Received(RunChunks(r, ws).reader, m), k)
    decreases |ws|
  {
    hide Step, Safe;
    var step := Step(r, ws[0]).value;
    StepIsSafe(r, ws[0]);
    Concat(ws[0], Flatten(ws[1..]), k);
    StepExtends(r, ws[0], Flatten(ws[1..]) + k);
    assert [] + (Flatten(ws[1..]) + k) == Flatten(ws[1..]) + k;
    var ds := RunChunks(step.reader, ws[1..]).deliveries;
    assert RunChunks(r, ws).deliveries == [step.delivered] + ds;
    if |ws| == 1 {
      assert Flatten(ws[1..]) + k == k;
      assert step.delivered == RunChunks(r, ws).deliveries[0];
    } else {
      assert step.delivered == RunChunks(r, ws).deliveries[0] == None;
      assert forall i | 0 <= i < |ds| :: ds[i] == RunChunks(r, ws).deliveries[i + 1];
      ReadRun(step.reader, ws[1..], m, k);
    }
  }
}
