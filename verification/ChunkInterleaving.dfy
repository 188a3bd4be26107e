/** Chunk streams do not disturb one another: chunks may be interleaved at will. */
module ChunkInterleaving {
  import opened Wire
  import opened Chunks
  import opened ChunkReader
  import opened ChunkTransport
  import opened ChunkSession

  ghost predicate Readable(ws: seq<Bytes>) {
    forall i | 0 <= i < |ws| :: TakeBasic(ws[i]).Ok?
  }

  predicate On(w: Bytes, id: u32) {
    TakeBasic(w).Ok? && TakeBasic(w).value.csid == id
  }

  /** The chunks on one chunk stream, in their order. */
  function Project(ws: seq<Bytes>, id: u32): (ps: seq<Bytes>)
    decreases |ws|
  {
    if ws == [] then [] else (if On(ws[0], id) then [ws[0]] else []) + Project(ws[1..], id)
  }

  /** What those chunks delivered. */
  function Select(ws: seq<Bytes>, ds: seq<Option<Message>>, id: u32): seq<Option<Message>>
    requires |ds| == |ws|
    decreases |ws|
  {
    if ws == [] then [] else (if On(ws[0], id) then [ds[0]] else []) + Select(ws[1..], ds[1..], id)
  }

  // ----- One chunk stream alone

  datatype LocalRun = LocalRan(local: Local, deliveries: seq<Option<Message>>) | LocalMisread

  function RunLocal(size: u32, l: Local, ws: seq<Bytes>): LocalRun
    requires SafeSize(size) && SafeLocal(l) && Readable(ws)
    decreases |ws|
  {
    if ws == [] then LocalRan(l, []) else
      var b := TakeBasic(ws[0]);
      var p := StepLocal(size, l, b.value, b.rest);
      if p.Fail? || p.rest != [] then LocalMisread else
        StepLocalIsSafe(size, l, b.value, b.rest);
        match RunLocal(size, p.value.local, ws[1..])
        case LocalRan(l', ds) => LocalRan(l', [p.value.delivered] + ds)
        case LocalMisread => LocalMisread
  }

  lemma StepIsLocal(r: Reader, w: Bytes, id: u32)
    requires Safe(r) && On(w, id)
    ensures SafeSize(r.size) && SafeLocal(LocalOf(r, id))
    ensures var b := TakeBasic(w);
            var p, l := Step(r, w), StepLocal(r.size, LocalOf(r, id), b.value, b.rest);
            && (p.Ok? <==> l.Ok?)
            && (p.Ok? ==> p.rest == l.rest && p.value.delivered == l.value.delivered
                          && LocalOf(p.value.reader, id) == l.value.local
                          && SameElsewhere(r, p.value.reader, id) && Safe(p.value.reader))
  {
    hide StepLocal, WithLocal, TakeBasic, Safe;
    SafeParts(r, id);
    StepIsSafe(r, w);
    var b := TakeBasic(w);
    var l := StepLocal(r.size, LocalOf(r, id), b.value, b.rest);
    if l.Ok? {
      WithLocalIs(Account(r, l.value.cost), id, l.value.local);
    }
  }

  lemma ProjectReadable(ws: seq<Bytes>, id: u32)
    requires Readable(ws)
    ensures Readable(Project(ws, id))
    ensures forall i | 0 <= i < |Project(ws, id)| :: On(Project(ws, id)[i], id)
    decreases |ws|
  {
    hide TakeBasic;
    if ws != [] {
      ProjectReadable(ws[1..], id);
    }
  }

  /** The reader run as seen from each chunk stream. */
  ghost predicate SeenFrom(r: Reader, ws: seq<Bytes>, id: u32)
    requires Safe(r) && Readable(ws)
  {
    SafeParts(r, id);
    ProjectReadable(ws, id);
    RunChunks(r, ws).Ran? ==>
      RunLocal(r.size, LocalOf(r, id), Project(ws, id))
      == LocalRan(LocalOf(RunChunks(r, ws).reader, id), Select(ws, RunChunks(r, ws).deliveries, id))
  }

  ghost predicate ReadAlone(r: Reader, ws: seq<Bytes>, id: u32)
    requires Safe(r) && Readable(ws)
  {
    SafeParts(r, id);
    ProjectReadable(ws, id);
    RunLocal(r.size, LocalOf(r, id), Project(ws, id)).LocalRan?
  }

  lemma FirstStep(r: Reader, ws: seq<Bytes>, id: u32, j: u32)
    requires Safe(r) && Readable(ws) && ws != [] && On(ws[0], id)
    requires Step(r, ws[0]).Ok? && Step(r, ws[0]).rest == [] && Safe(Step(r, ws[0]).value.reader)
    ensures Readable(ws[1..])
    ensures ReadAlone(r, ws, j) <==> ReadAlone(Step(r, ws[0]).value.reader, ws[1..], j)
    ensures SeenFrom(r, ws, j) <== SeenFrom(Step(r, ws[0]).value.reader, ws[1..], j)
  {
    hide TakeBasic, StepLocal, Step, Safe, LocalOf;
    StepIsLocal(r, ws[0], id);
    SafeParts(r, j);
    ProjectReadable(ws, j);
    ProjectReadable(ws[1..], j);
    var r1 := Step(r, ws[0]).value.reader;
    SafeParts(r1, j);
    var run := RunChunks(r1, ws[1..]);
    if run.Ran? {
      var ds := [Step(r, ws[0]).value.delivered] + run.deliveries;
      assert ds[1..] == run.deliveries;
    }
    if j == id {
      assert Project(ws, j) == [ws[0]] + Project(ws[1..], j);
      assert Project(ws, j)[1..] == Project(ws[1..], j);
    } else {
      assert Project(ws, j) == [] + Project(ws[1..], j) == Project(ws[1..], j);
      if run.Ran? {
        var ds := [Step(r, ws[0]).value.delivered] + run.deliveries;
        assert Select(ws, ds, j) == [] + Select(ws[1..], run.deliveries, j) == Select(ws[1..], run.deliveries, j);
      }
    }
  }

  lemma FirstStuck(r: Reader, ws: seq<Bytes>, id: u32)
    requires Safe(r) && Readable(ws) && ws != [] && On(ws[0], id)
    requires Step(r, ws[0]).Fail? || Step(r, ws[0]).rest != []
    ensures !ReadAlone(r, ws, id)
  {
    hide TakeBasic, StepLocal, Step, Safe, LocalOf;
    StepIsLocal(r, ws[0], id);
    ProjectReadable(ws, id);
    assert Project(ws, id) == [ws[0]] + Project(ws[1..], id);
  }

  /** A run reads every chunk if and only if each chunk stream's own chunks can be read, and then each chunk
      stream sees exactly its own run. */
  lemma {:induction false} RunIsLocal(r: Reader, ws: seq<Bytes>)
    requires Safe(r) && Readable(ws)
    ensures RunChunks(r, ws).Ran? <==> forall id: u32 :: ReadAlone(r, ws, id)
    ensures forall id: u32 :: SeenFrom(r, ws, id)
    decreases |ws|
  {
    hide TakeBasic, Step, Safe, ReadAlone, SeenFrom;
    if ws == [] {
      forall id: u32 ensures ReadAlone(r, ws, id) && SeenFrom(r, ws, id) {
        NothingRead(r, id);
      }
    } else {
      var id := TakeBasic(ws[0]).value.csid;
      if Step(r, ws[0]).Fail? || Step(r, ws[0]).rest != [] {
        FirstStuck(r, ws, id);
        forall j: u32 ensures SeenFrom(r, ws, j) {
          NotSeen(r, ws, j);
        }
      } else {
        StepIsSafe(r, ws[0]);
        var r1 := Step(r, ws[0]).value.reader;
        assert Readable(ws[1..]);
        RunIsLocal(r1, ws[1..]);
        forall j: u32
          ensures ReadAlone(r, ws, j) <==> ReadAlone(r1, ws[1..], j)
          ensures SeenFrom(r, ws, j)
        {
          FirstStep(r, ws, id, j);
          assert SeenFrom(r1, ws[1..], j);
        }
      }
    }
  }

  lemma NothingRead(r: Reader, id: u32)
    requires Safe(r)
    ensures ReadAlone(r, [], id) && SeenFrom(r, [], id)
  {
    hide Safe;
  }

  lemma NotSeen(r: Reader, ws: seq<Bytes>, id: u32)
    requires Safe(r) && Readable(ws) && RunChunks(r, ws).Misread?
    ensures SeenFrom(r, ws, id)
  {
  }

  // ----- Interleavings and their parts

  lemma {:induction false} ProjectTwice(ws: seq<Bytes>, id: u32, j: u32)
    ensures Project(Project(ws, id), j) == if j == id then Project(ws, id) else []
    decreases |ws|
  {
    hide TakeBasic;
    if ws != [] {
      ProjectTwice(ws[1..], id, j);
      if On(ws[0], id) {
        assert Project(ws, id)[1..] == Project(ws[1..], id);
        assert [] + Project(Project(ws[1..], id), j) == Project(Project(ws[1..], id), j);
      } else {
        assert Project(ws, id) == Project(ws[1..], id);
      }
    }
  }

  lemma {:induction false} SelectAll(ws: seq<Bytes>, ds: seq<Option<Message>>, id: u32)
    requires |ds| == |ws| && forall i | 0 <= i < |ws| :: On(ws[i], id)
    ensures Select(ws, ds, id) == ds
    decreases |ws|
  {
    hide On;
    if ws != [] {
      SelectAll(ws[1..], ds[1..], id);
    }
  }

  /** The run over one chunk stream's chunks alone, in terms of that chunk stream. */
  lemma AloneIsLocal(r: Reader, ws: seq<Bytes>, id: u32)
    requires Safe(r) && Readable(ws)
    ensures RunChunks(r, Project(ws, id)).Ran? <==> ReadAlone(r, ws, id)
    ensures Readable(Project(ws, id))
    ensures ReadAlone(r, ws, id) ==>
              (SafeParts(r, id);
               RunLocal(r.size, LocalOf(r, id), Project(ws, id))
               == LocalRan(LocalOf(RunChunks(r, Project(ws, id)).reader, id), RunChunks(r, Project(ws, id)).deliveries))
  {
    hide TakeBasic, Step, Safe, RunLocal, RunChunks;
    ProjectReadable(ws, id);
    var ps := Project(ws, id);
    RunIsLocal(r, ps);
    SafeParts(r, id);
    ProjectTwice(ws, id, id);
    assert ReadAlone(r, ps, id) <==> ReadAlone(r, ws, id);
    forall j: u32 | j != id ensures ReadAlone(r, ps, j) {
      ProjectTwice(ws, id, j);
      NothingRead(r, j);
    }
    assert SeenFrom(r, ps, id);
    if RunChunks(r, ps).Ran? {
      SelectAll(ps, RunChunks(r, ps).deliveries, id);
    }
  }

  /** For every interleaving of chunks, on any chunk streams: it is read chunk by chunk if and only if the
      chunks of each chunk stream are, read alone; and then the messages delivered on each chunk stream, and
      the state it is left in, are exactly those of reading its chunks alone. */
  lemma Interleaving(r: Reader, ws: seq<Bytes>)
    requires Safe(r) && Readable(ws)
    ensures RunChunks(r, ws).Ran? <==> forall id: u32 :: RunChunks(r, Project(ws, id)).Ran?
    ensures RunChunks(r, ws).Ran? ==>
              forall id: u32 ::
                var all, alone := RunChunks(r, ws), RunChunks(r, Project(ws, id));
                && alone.Ran?
                && Select(ws, all.deliveries, id) == alone.deliveries
                && LocalOf(all.reader, id) == LocalOf(alone.reader, id)
  {
    hide TakeBasic, Step, Safe, RunLocal, RunChunks, Select, Project, LocalOf;
    RunIsLocal(r, ws);
    forall id: u32
      ensures RunChunks(r, Project(ws, id)).Ran? <==> ReadAlone(r, ws, id)
      ensures RunChunks(r, ws).Ran? ==>
                var all, alone := RunChunks(r, ws), RunChunks(r, Project(ws, id));
                && alone.Ran?
                && Select(ws, all.deliveries, id) == alone.deliveries
                && LocalOf(all.reader, id) == LocalOf(alone.reader, id)
    {
      AloneIsLocal(r, ws, id);
      assert SeenFrom(r, ws, id);
    }
    if RunChunks(r, ws).Misread? {
      var id: u32 :| !ReadAlone(r, ws, id);
      assert RunChunks(r, Project(ws, id)).Misread?;
    }
  }

  /** The same of a byte stream: it delivers the messages of all chunk streams, and on each chunk stream those that its
      chunks deliver when they are a byte stream of their own. */
  lemma InterleavedStream(r: Reader, ws: seq<Bytes>, id: u32, k: Bytes)
    requires Safe(r) && Readable(ws) && forall j: u32 :: RunChunks(r, Project(ws, j)).Ran?
    ensures RunChunks(r, ws).Ran?
    ensures var ds := RunChunks(r, ws).deliveries;
            var all, alone := Messages(ds), Messages(Select(ws, ds, id));
            && ReadAll(false, r, Flatten(ws) + k, |all|).Ok?
            && ReadAll(false, r, Flatten(ws) + k, |all|).value.messages == all
            && ReadAll(false, r, Flatten(Project(ws, id)) + k, |alone|).Ok?
            && ReadAll(false, r, Flatten(Project(ws, id)) + k, |alone|).value.messages == alone
  {
    hide RunChunks, Select, Project, ReadAll, Messages, Safe, Readable;
    Interleaving(r, ws);
    StreamRead(r, ws, k);
    StreamRead(r, Project(ws, id), k);
  }

  /** Steps on different chunk streams commute, apart from when an acknowledgement falls due. */
  lemma StepsCommute(r: Reader, a: Bytes, b: Bytes, i: u32, j: u32)
    requires Safe(r) && On(a, i) && On(b, j) && i != j
    requires Step(r, a).Ok? && Step(r, a).rest == [] && Step(r, b).Ok? && Step(r, b).rest == []
    ensures Safe(Step(r, a).value.reader) && Safe(Step(r, b).value.reader)
    ensures var ab, ba := Step(Step(r, a).value.reader, b), Step(Step(r, b).value.reader, a);
            && ab.Ok? && ba.Ok? && ab.rest == [] && ba.rest == []
            && ab.value.delivered == Step(r, b).value.delivered && ba.value.delivered == Step(r, a).value.delivered
            && (forall id: u32 :: LocalOf(ab.value.reader, id) == LocalOf(ba.value.reader, id))
  {
    hide TakeBasic, Step, StepLocal, Safe, LocalOf;
    StepIsLocal(r, a, i);
    StepIsLocal(r, b, j);
    var ra, rb := Step(r, a).value.reader, Step(r, b).value.reader;
    assert LocalOf(ra, j) == LocalOf(r, j) && LocalOf(rb, i) == LocalOf(r, i);
    StepIsLocal(ra, b, j);
    StepIsLocal(rb, a, i);
    var rab, rba := Step(ra, b).value.reader, Step(rb, a).value.reader;
    forall id: u32 ensures LocalOf(rab, id) == LocalOf(rba, id) {
      if id == i {
        assert LocalOf(rab, id) == LocalOf(ra, id);
      } else if id == j {
        assert LocalOf(rba, id) == LocalOf(rb, id);
      } else {
        assert LocalOf(rab, id) == LocalOf(ra, id) == LocalOf(r, id);
        assert LocalOf(rba, id) == LocalOf(rb, id) == LocalOf(r, id);
      }
    }
  }

  /** A message and the writer that sends it. */
  datatype Sending = Sending(writer: Writer, message: Message)

  ghost predicate MayArrive(r: Reader, id: u32, s: Sending) {
    && Sync(s.writer, r) && Legal(s.writer, s.message) && s.message.data != []
    && Effective(s.writer, s.message).csid == id
  }

  /** Messages on different chunk streams, their chunks interleaved in any way, all arrive: each chunk stream
      delivers its message with the last of its chunks and nothing before. */
  lemma InterleavedMessages(r: Reader, ws: seq<Bytes>, sent: map<u32, Sending>)
    requires Safe(r) && Readable(ws)
    requires forall i | 0 <= i < |ws| :: TakeBasic(ws[i]).value.csid in sent
    requires forall id | id in sent :: MayArrive(r, id, sent[id])
    requires forall id | id in sent ::
               MayArrive(r, id, sent[id]) ==> Project(ws, id) == Wires(ChunksOf(sent[id].writer, sent[id].message))
    ensures RunChunks(r, ws).Ran?
    ensures forall id | id in sent ::
              DeliversLast(Select(ws, RunChunks(r, ws).deliveries, id),
                           ArrivedFrom(sent[id].writer, r, sent[id].message))
  {
    hide TakeBasic, Step, Safe, RunChunks, Select, LocalOf, Sync, Legal, ChunksOf, Wires, Readable, DeliversLast;
    forall id: u32
      ensures RunChunks(r, Project(ws, id)).Ran?
      ensures id in sent ==>
                DeliversLast(RunChunks(r, Project(ws, id)).deliveries,
                             ArrivedFrom(sent[id].writer, r, sent[id].message))
    {
      if id in sent {
        assert MayArrive(r, id, sent[id]);
        MessageArrives(sent[id].writer, r, sent[id].message);
      } else {
        ProjectNone(ws, id);
        RunNothing(r);
      }
    }
    Interleaving(r, ws);
  }

  lemma RunNothing(r: Reader)
    requires Safe(r)
    ensures RunChunks(r, []).Ran?
  {
  }

  lemma {:induction false} ProjectNone(ws: seq<Bytes>, id: u32)
    requires Readable(ws) && forall i | 0 <= i < |ws| :: TakeBasic(ws[i]).value.csid != id
    ensures Project(ws, id) == []
    decreases |ws|
  {
    hide TakeBasic;
    if ws != [] {
      ProjectNone(ws[1..], id);
    }
  }
}
